# Models of the storage driver, the rule manager and the coscheduling plugin

Dafny models of four parts of the repository, with proofs about every input, every run and every interleaving:

1. **The CSI hostpath driver.** A store of volumes, snapshots and groups that several driver processes share through
   one config map (`Store`), the RPCs as imperative methods of a class (`Server`, `GroupServer`, `Paging`), and a
   specification of each RPC as a list of at most two atomic changes (`Driver`, `Groups`). The methods are proved equal
   to the specification. What each call does and replies is stated on the stored records (`Effects`, `SnapshotEffects`),
   and the invariants of all runs are proved on the specification (`Lifecycle`, `Capacity`, `Mounts`, `Repeat`,
   `GroupInvariants`, together in `Reachable`). `Processes` proves that any number of processes refine one
   sequential map, and `Fleet` carries the invariants over to their interleavings and adds the snapshot
   calls, with a run that loses a volume in `LostVolume`.
   The lifecycle is that of the Container Storage Interface specification, sections "Volume Lifecycle", "CreateVolume",
   "NodePublishVolume" and "ListSnapshots".
2. **The iptables and nftables rule manager.** The kernel is a map from table and chain to a list of rules; `-D` removes
   the first equal rule and `-A` appends (`IpTables`). `RuleOrder`, `RuleTeardown` and `EnsureLoop` prove what bootstrap,
   teardown and the periodic loop do to it, `Loops` interleaves several loops, `Rules` and `Manager`
   instantiate this with the real rule lists, `Masquerade` and `Nftables` compare the packets that the two back ends
   masquerade, and `Payload` is the text for iptables-restore with a parser for it.
3. **The coscheduling plugin.** Its extension points and the scheduler steps around them (`Coschedule`), and the
   gang-scheduling invariants of every interleaving (`Gang`).
4. **`subnet.env`.** Writer and reader, with the CIDR text of section 3.1 of RFC 4632 (`Cidr`, `SubnetEnv`), and what any
   file gives (`SubnetFields`).

`Common`, `KeyedList`, `Ordering`, `Text` and `Decimal` hold what the others share.

What stands outside the program is a parameter: new UUIDs, times, whether an OS step succeeds, the order in which Go
iterates a map, the text form of IPv6 networks, and the kernel's mount table (`Sys.mounts`). Each RPC is one atomic
step, because it holds a mutex; reads and writes of the config map succeed.

Where the code does not keep what its documentation or its intent promises, the code is modelled and the exact
condition proved:

- `Lifecycle.RunKeepsOrderExactly`: the lifecycle order breaks exactly when an ephemeral request reaches a persistent
  volume that is not staged while some volume has its `ephemeral-` name; `OrderBreaksFromEmpty` is such a run.
- `ExpandKeepsPoolsExactly`: an expansion is not checked against the pool.
- `RepeatedCreate`, `SourceIsForgotten`: the parent IDs are never stored, so repeating a clone of a volume is refused,
  and a request for a taken name with another source snapshot is not.
- `FailedCreateIsUndone`: a failed creation leaves its record behind exactly if it was admitted, its content cannot be
  loaded and the cleanup fails.
- `RepeatedAtOnce`, `StaleName`: a snapshot name is looked up in memory before the reload, so a process that does not
  remember a stored snapshot makes another of the name; the exact condition is proved.
- `DropKeepsGroupsExactly`: the group check of DeleteSnapshot never fires, so a member can be deleted.
- `Fleet.SnapshotMove`: deleting a snapshot or a group writes back the volumes that the process remembers, and keeps
  the stored ones exactly if it remembers them; `StaleDeleteLosesVolume` loses a volume of another process.
  `InformedIsCareful` says on which schedules this cannot happen.
- `BySourceCompleteness`: listing by source volume gives only the first snapshot.
- `CrashExactly`: which tokens and page sizes make ListSnapshots panic.
- `Manager.IPTablesManager.PrepareMasqRules`: the cluster network of the run before is never set, so the recycling step
  runs on every start with a cluster network; it tears down rules of a network `<nil>`, and if its checks do not answer
  while the managed chain exists, the masquerade loop is not started.
- `CleanUpLeavesMasquerade`: the clean-up list names the masquerade rules twice, so the clean-up is refused, exactly if
  that loop was started.
- `MasqIP6RulesManaged`: the IPv6 list repeats a rule if and only if both networks are the same.
- `BackEnds`: the nftables call passes the two networks in the other order than the parameters are named, and compares
  the whole mark; the difference between the back ends is stated packet by packet.
- `ReadBack`, `CommitLineConfuses`: a line that is just `COMMIT` ends a block early.
- `BackoffSpreads`: a failing pod backs off its own group; one without a group, all pods without one, everywhere.
- `FirstPodIsUnchecked`: the queue and the number of pods of a group are checked only from its second pod on.
- `BareKeyStops`: a known key without `=`, on a line that is reached, stops the reader with an index out of range.

## Model

| member | source | states |
|---|---|---|
| Store.State.Dump | simplecsi/simplecsi/pkg/state/state.go:185-197 | writes the whole memory into the shared cell and changes nothing else |
| Store.State.Restore | simplecsi/simplecsi/pkg/state/state.go:199-215 | memory becomes what the cell holds; a cell without data leaves it empty |
| Store.State.GetVolumeByID | simplecsi/simplecsi/pkg/state/state.go:217-229 | reloads, then gives the first stored volume with the ID, or none; the cell is unchanged |
| Store.State.GetVolumeByName | simplecsi/simplecsi/pkg/state/state.go:231-243 | the same by name |
| Store.State.GetVolumes | simplecsi/simplecsi/pkg/state/state.go:245-253 | reloads and gives all stored volumes |
| Store.State.UpdateVolume | simplecsi/simplecsi/pkg/state/state.go:255-268 | reloads, replaces the record with the same ID in place or appends, and saves |
| Store.State.DeleteVolume | simplecsi/simplecsi/pkg/state/state.go:270-283 | reloads, removes the first record with the ID keeping the order of the rest, and saves |
| Store.State.GetSnapshotByID | simplecsi/simplecsi/pkg/state/state.go:285-292 | looks only in memory, without a reload |
| Store.State.GetSnapshotByName | simplecsi/simplecsi/pkg/state/state.go:294-301 | looks only in memory, without a reload |
| Store.State.UpdateSnapshot | simplecsi/simplecsi/pkg/state/state.go:309-318 | replaces or appends in memory and saves memory, whatever the cell held |
| Store.State.DeleteSnapshot | simplecsi/simplecsi/pkg/state/state.go:320-328 | removes from memory and saves memory; without a match nothing is saved |
| Store.State.GetGroupSnapshotByID | simplecsi/simplecsi/pkg/state/state.go:330-337 | looks only in memory |
| Store.State.GetGroupSnapshotByName | simplecsi/simplecsi/pkg/state/state.go:339-346 | looks only in memory |
| Store.State.UpdateGroupSnapshot | simplecsi/simplecsi/pkg/state/state.go:356-365 | replaces or appends a group in memory and saves memory |
| Store.State.DeleteGroupSnapshot | simplecsi/simplecsi/pkg/state/state.go:367-375 | removes a group from memory and saves memory |
| Server.Has | simplecsi/simplecsi/pkg/state/strings.go:29-36 | true exactly if the string is in the list |
| Server.Remove | simplecsi/simplecsi/pkg/state/strings.go:44-51 | the list without its first occurrence of the string |
| Server.HostPath.Handle | simplecsi/simplecsi/pkg/server/serve.go:93-103 | every volume RPC, by its handler: reply, mounts, memory and cell of the decision on the reloaded state; memory is what the cell holds if the RPC looks something up, and untouched otherwise |
| Server.HostPath.SumVolumeSizes | simplecsi/simplecsi/pkg/hostpath/hostpath.go:221-228 | the int64 sum, with wrap-around, of the sizes of a kind |
| Server.HostPath.GetAttachCount | simplecsi/simplecsi/pkg/hostpath/hostpath.go:333-341 | the number of attached volumes |
| Server.HostPath.HostPathCreateVolume | simplecsi/simplecsi/pkg/hostpath/hostpath.go:92-189 | refuses or admits by size and kind, picks a kind with room, saves the record that Driver.NewVolume gives, which Effects.NewVolumeEffect describes |
| Server.HostPath.HostPathDeleteVolume | simplecsi/simplecsi/pkg/hostpath/hostpath.go:192-219 | an unknown volume is fine; a failed cleanup keeps the record; otherwise it is removed |
| Server.HostPath.HostPathLoad | simplecsi/simplecsi/pkg/hostpath/hostpath.go:247-301 | the error, if any, of loading content from a snapshot or another volume |
| Server.HostPath.PopulateVolume | simplecsi/simplecsi/pkg/hostpath/controllerserver/controllerserver.go:175-212 | loads content, deletes the new volume again if that fails, and gives the reply |
| Server.HostPath.CreateVolume | simplecsi/simplecsi/pkg/hostpath/controllerserver/controllerserver.go:42-223 | reply, store and mounts are those of the one-step decision on the reloaded state |
| Server.HostPath.CheckExisting | simplecsi/simplecsi/pkg/hostpath/controllerserver/controllerserver.go:121-161 | a taken name is answered with the ID and the size of its volume exactly if that is large enough and the source matches; InvalidArgument exactly for an unknown source of a volume large enough; else AlreadyExists |
| Server.HostPath.DeleteVolume | simplecsi/simplecsi/pkg/hostpath/controllerserver/controllerserver.go:225-263 | reply and store of the decision, with the lifecycle check on attached, staged or published volumes |
| Server.HostPath.ControllerPublishVolume | simplecsi/simplecsi/pkg/hostpath/controllerserver/controllerserver.go:308-362 | reply and store of the decision: attach once, on this node only, within the attach limit |
| Server.HostPath.ControllerUnpublishVolume | simplecsi/simplecsi/pkg/hostpath/controllerserver/controllerserver.go:364-404 | reply and store of the decision: detach, unless staged or published |
| Server.HostPath.ControllerExpandVolume | simplecsi/simplecsi/pkg/hostpath/controllerserver/controllerserver.go:796-837 | reply and store of the decision: sizes only grow, up to the maximum volume size |
| Server.HostPath.GetCapacity | simplecsi/simplecsi/pkg/hostpath/controllerserver/controllerserver.go:406-438 | available room and maximum volume size of a kind |
| Server.HostPath.NodeStageVolume | simplecsi/simplecsi/pkg/hostpath/nodeserver/nodeserver.go:281-326 | reply and store of the decision: stage only attached volumes, at one path |
| Server.HostPath.NodeUnstageVolume | simplecsi/simplecsi/pkg/hostpath/nodeserver/nodeserver.go:328-363 | reply and store of the decision: unstage unless published |
| Server.HostPath.IsMountedElsewhere | simplecsi/simplecsi/pkg/hostpath/nodeserver/nodeserver.go:557-564 | true exactly if some published target differs from this one |
| Server.HostPath.PublishFound | simplecsi/simplecsi/pkg/hostpath/nodeserver/nodeserver.go:67-217 | publishing a stored volume: reply, store and mount table of the decision |
| Server.HostPath.NodePublishVolume | simplecsi/simplecsi/pkg/hostpath/nodeserver/nodeserver.go:37-217 | the whole RPC, with creation of ephemeral volumes |
| Server.HostPath.ReleaseTarget | simplecsi/simplecsi/pkg/hostpath/nodeserver/nodeserver.go:242-275 | unmount, record the unpublish, delete an ephemeral volume: reply, store and mount table of the decision |
| Server.HostPath.NodeUnpublishVolume | simplecsi/simplecsi/pkg/hostpath/nodeserver/nodeserver.go:219-279 | the whole RPC |
| Driver.StepIsEvents | simplecsi/simplecsi/pkg/hostpath/nodeserver/nodeserver.go:37-363 | every RPC is at most two atomic changes, each of which meets its guard in the state where it happens |
| Driver.CreateEvents | simplecsi/simplecsi/pkg/hostpath/controllerserver/controllerserver.go:121-212 | a creation saves one admitted new record, and takes it away again if loading fails |
| Driver.PublishEvents | simplecsi/simplecsi/pkg/hostpath/nodeserver/nodeserver.go:67-213 | at most a creation and a publish; what is published is stored, and it is staged or a volume with its ephemeral name exists; a mount needs a free target |
| Driver.UnpublishEvents | simplecsi/simplecsi/pkg/hostpath/nodeserver/nodeserver.go:219-279 | an unpublish changes something only if the target is published for that volume, and erases only ephemeral volumes |
| Effects.PublishEffect | simplecsi/simplecsi/pkg/hostpath/nodeserver/nodeserver.go:67-217 | a publish of a stored volume mounts the target for it and appends it to the record, on this node, if and only if no other target blocks it, the staging path is right, the type fits and the target can be mounted; otherwise nothing changes, and the reply says which condition fails, or Done for a target already mounted |
| Effects.EphemeralEffect | simplecsi/simplecsi/pkg/hostpath/nodeserver/nodeserver.go:67-217 | the first publish of an ephemeral volume stores a record of 100 MiB under its ephemeral name, in place of one with its ID, and publishes that |
| Effects.EphemeralRefused | simplecsi/simplecsi/pkg/hostpath/nodeserver/nodeserver.go:67-86 | if that volume is not admitted, nothing changes |
| Effects.UnpublishEffect | simplecsi/simplecsi/pkg/hostpath/nodeserver/nodeserver.go:219-279 | an unmount that works frees the target; once it is also removed, the record loses the target, or goes if it is ephemeral and can be deleted; Done exactly if all steps worked or the target was not published |
| Effects.StageEffect | simplecsi/simplecsi/pkg/hostpath/nodeserver/nodeserver.go:281-326 | an attached volume that is not staged gets the path, and nothing else changes; which requests are done, and why the others fail |
| Effects.UnstageEffect | simplecsi/simplecsi/pkg/hostpath/nodeserver/nodeserver.go:328-363 | a staged path goes if and only if nothing is published |
| Effects.AdmitEffect | simplecsi/simplecsi/pkg/hostpath/hostpath.go:92-121 | a size is booked under the kind that the request names, otherwise under the first kind with room, exactly if there is one; which code a refusal has |
| Effects.NewVolumeEffect | simplecsi/simplecsi/pkg/hostpath/hostpath.go:92-189 | the record of an admitted volume: its name, ID, size, path, access type, kind and node |
| Effects.CreateEffect | simplecsi/simplecsi/pkg/hostpath/controllerserver/controllerserver.go:121-222 | an admitted creation of a free name appends exactly that record and replies with the requested size if and only if its content loads; else the record stays only if it cannot be removed, and the code says why |
| Effects.CreateRefused | simplecsi/simplecsi/pkg/hostpath/controllerserver/controllerserver.go:121-173 | a creation that is not admitted changes nothing, and the code says why |
| Effects.LoadEffect | simplecsi/simplecsi/pkg/hostpath/hostpath.go:247-301 | content loads exactly if its source is there, ready, not larger than the volume and of its access type, and the copy works |
| Effects.DeleteEffect | simplecsi/simplecsi/pkg/hostpath/controllerserver/controllerserver.go:225-263 | the record goes, and only it, exactly if it is not in use, or that is not checked, and the clean-up works |
| Effects.AttachEffect | simplecsi/simplecsi/pkg/hostpath/controllerserver/controllerserver.go:308-362 | a detached volume becomes attached within the limit, with the flag of the request; when an attached one is done again or refused |
| Effects.DetachEffect | simplecsi/simplecsi/pkg/hostpath/controllerserver/controllerserver.go:364-404 | the volume is detached unless it is staged or published and that is checked |
| Effects.ExpandEffect | simplecsi/simplecsi/pkg/hostpath/controllerserver/controllerserver.go:796-837 | the size becomes the larger of the two, and the reply is the size then stored |
| Effects.RefusedEarly | simplecsi/simplecsi/pkg/hostpath/controllerserver/controllerserver.go:42-120 | incomplete requests, calls that the driver does not serve, other nodes and too large sizes change nothing, each with its code |
| Effects.UnknownVolume | simplecsi/simplecsi/pkg/hostpath/controllerserver/controllerserver.go:225-263 | for an unknown volume nothing changes; deleting and detaching are done, every other call fails with NotFound |
| Lifecycle.RunKeepsUnique | simplecsi/simplecsi/pkg/state/state.go:255-283 | in every run volume IDs and volume names stay unique |
| Lifecycle.RunKeepsLifecycle | simplecsi/simplecsi/pkg/hostpath/nodeserver/nodeserver.go:306-357 | with attach and lifecycle checks on, in every run published implies staged, staged implies attached, and there is at most one staging path, for non-ephemeral volumes |
| Lifecycle.RunKeepsOrderExactly | simplecsi/simplecsi/pkg/hostpath/nodeserver/nodeserver.go:67-105 | with attach and lifecycle checks on, a run keeps the order for every persistent volume in all its states if and only if no request of it slips past the staging check, whatever the names are |
| Lifecycle.StepKeepsOrderExactly | simplecsi/simplecsi/pkg/hostpath/nodeserver/nodeserver.go:67-213 | one RPC breaks the order if and only if it is an ephemeral publish, past all its other guards, of a persistent volume that is not staged and whose ephemeral name is taken |
| Lifecycle.AllowedNeverSlips | simplecsi/simplecsi/pkg/hostpath/nodeserver/nodeserver.go:67-82 | creation names outside the ephemeral- name space are enough for that |
| Lifecycle.EphemeralNameBreaksLifecycle | simplecsi/simplecsi/pkg/hostpath/nodeserver/nodeserver.go:67-105 | what such a request does to a store of two volumes: the first is published without being staged |
| Lifecycle.OrderBreaksFromEmpty | simplecsi/simplecsi/pkg/hostpath/nodeserver/nodeserver.go:67-105 | from an empty store two creations and one publish break the order |
| Lifecycle.InUseIsKept | simplecsi/simplecsi/pkg/hostpath/controllerserver/controllerserver.go:248-257 | no RPC but an unpublish or re-creation of an ephemeral volume drops a record that is attached, staged or published |
| Capacity.FitsIsExact | simplecsi/simplecsi/pkg/hostpath/hostpath.go:95-121 | within the invariant the int64 pool check is the exact one, with no overflow |
| Capacity.RunKeepsPools | simplecsi/simplecsi/pkg/hostpath/hostpath.go:95-121 | with capacity tracking, in every run without expansion each kind stays within its pool and its int64 total is exact |
| Capacity.RunKeepsSizes | simplecsi/simplecsi/pkg/hostpath/controllerserver/controllerserver.go:811-831 | in every run each size stays between 0 and the maximum volume size |
| Capacity.ExpandRaisesByDifference | simplecsi/simplecsi/pkg/hostpath/controllerserver/controllerserver.go:826-831 | an expand raises the total of its kind by exactly new minus old and no other total |
| Capacity.ExpandKeepsPoolsExactly | simplecsi/simplecsi/pkg/hostpath/controllerserver/controllerserver.go:811-831 | expansion is not checked against the pool: the pools still hold exactly if the difference fits |
| Capacity.PoolThreshold | simplecsi/simplecsi/pkg/hostpath/controllerserver/controllerserver.go:412-437 | available room is quota minus used, and the maximum is the largest size that fits |
| Capacity.MaximumIsThreshold | simplecsi/simplecsi/pkg/hostpath/controllerserver/controllerserver.go:412-437 | the reported maximum against admission: with a kind and tracking, and without either, it is the exact threshold; a kind without tracking is always refused; with tracking and no kind nothing above 0 is reported, and a size is admitted if and only if the first kind with a large enough maximum has a name |
| Capacity.AnyKindAdmission | simplecsi/simplecsi/pkg/hostpath/hostpath.go:95-121 | without a kind, admitted if and only if some configured kind has room |
| Capacity.PickKindFinds | simplecsi/simplecsi/pkg/hostpath/hostpath.go:95-121 | the loop over kinds, in any order, finds a kind with room whenever there is one |
| Capacity.RunKeepsAttachLimit | simplecsi/simplecsi/pkg/hostpath/controllerserver/controllerserver.go:348-355 | in every run at most AttachLimit volumes are attached |
| Mounts.RunKeepsMounts | simplecsi/simplecsi/pkg/hostpath/nodeserver/nodeserver.go:131-275 | in every run each Published list is duplicate-free and is, for persistent volumes, exactly the set of targets mounted for the volume |
| Mounts.TargetsDisjoint | simplecsi/simplecsi/pkg/hostpath/nodeserver/nodeserver.go:154-168 | no target is in the lists of two volumes |
| Mounts.RunKeepsOwners | simplecsi/simplecsi/pkg/hostpath/nodeserver/nodeserver.go:242-275 | for persistent volumes every mount in the table belongs to a stored volume |
| Repeat.RepeatedCreate | simplecsi/simplecsi/pkg/hostpath/controllerserver/controllerserver.go:121-161 | after a creation and any RPCs that spare the volume, the request again returns the same ID and changes nothing, if and only if it does not clone a volume |
| Repeat.FailedCreateIsUndone | simplecsi/simplecsi/pkg/hostpath/controllerserver/controllerserver.go:121-212 | a request fails and yet changes something if and only if a new record is admitted, its content cannot be loaded and its cleanup fails |
| Repeat.RunKeepsNoParents | simplecsi/simplecsi/pkg/hostpath/controllerserver/controllerserver.go:175-206 | in no run does a stored record ever carry the ID of its source snapshot or volume |
| Repeat.SourceIsForgotten | simplecsi/simplecsi/pkg/hostpath/controllerserver/controllerserver.go:121-161 | in every state reached from an empty store, a taken name is answered with its volume if and only if the size suffices and the request clones no volume; any source snapshot is accepted |
| Reachable.DriverStates | simplecsi/simplecsi/pkg/state/state.go:176-283 | every state reached from an empty store keeps unique IDs and names, the lifecycle order, the pools, the size limit and the attach limit, each under its own conditions |
| Reachable.MountedStates | simplecsi/simplecsi/pkg/hostpath/nodeserver/nodeserver.go:131-275 | in every such state the Published lists and the mount table agree, no target is in two lists, and without ephemeral volumes no mount lacks its record |
| Processes.OrderIrrelevant | simplecsi/simplecsi/pkg/state/state.go:199-253 | the decision of an RPC does not depend on the order of the stored list |
| Processes.MapStepIsFunction | simplecsi/simplecsi/pkg/state/state.go:255-283 | the sequential map machine is deterministic |
| Processes.ActRefinesMap | simplecsi/simplecsi/pkg/state/state.go:199-283 | one RPC of one process, whatever it remembers, is one step of the map machine on the shared cell |
| Processes.TraceRefinesMap | simplecsi/simplecsi/pkg/state/state.go:199-283 | every interleaving of volume RPCs of any number of processes refines one sequential map of volumes; snapshots and groups stay |
| Processes.NoLostUpdate | simplecsi/simplecsi/pkg/state/state.go:255-283 | a volume changes only through an action about that volume: no process loses what another wrote |
| Fleet.SnapshotMove | simplecsi/simplecsi/pkg/state/state.go:309-375 | a snapshot or group call of one process keeps the stored volumes if and only if it deletes nothing or its process remembers them |
| Fleet.MoveKeepsKnowledge | simplecsi/simplecsi/pkg/state/state.go:199-328 | a process that remembers the stored volumes goes on doing so if and only if no other process changes them |
| Fleet.LookupTeaches | simplecsi/simplecsi/pkg/state/state.go:199-253 | after a volume RPC that gets as far as reading the store its process remembers exactly what is stored; any other volume RPC changes neither |
| Fleet.KnowsSince | simplecsi/simplecsi/pkg/state/state.go:199-328 | from then on it remembers the stored volumes over every interleaving in which the others change none |
| Fleet.InformedIsCareful | simplecsi/simplecsi/pkg/state/state.go:199-328 | so deletions are careful on every schedule on which each follows a lookup by its process, or the start, with no change of a volume by another process in between |
| Fleet.InformedDeletion | simplecsi/simplecsi/pkg/state/state.go:199-375 | after a lookup, and as long as no other process has written, a deletion keeps all volumes and all other snapshots and groups, and brings none back |
| Fleet.FleetKeepsGroups | simplecsi/simplecsi/pkg/state/state.go:285-375 | in every interleaving of all calls, careful or not, in every memory and in the cell, groups are whole: their IDs resolve to exactly the snapshots that carry their ID, for their source volumes |
| Fleet.MovesRefineMap | simplecsi/simplecsi/pkg/state/state.go:199-375 | as long as deletions are left to processes that remember the stored volumes, every interleaving of volume, snapshot and group calls is a run of the map machine |
| Fleet.FleetStates | simplecsi/simplecsi/pkg/state/state.go:176-375 | any number of processes with one configuration, from an empty config map: unique IDs and names, the lifecycle order, the sizes, the pools and the attach limit hold in every state of every such interleaving, each under its own conditions |
| Fleet.TraceIsMoves | simplecsi/simplecsi/pkg/state/state.go:199-283 | the interleavings of volume RPCs are among these |
| Fleet.RepeatedInFleet | simplecsi/simplecsi/pkg/hostpath/controllerserver/controllerserver.go:590-606 | over every interleaving during which a snapshot stays the first one stored of its name, a process that remembers it answers the repeated request with it, and another volume with AlreadyExists |
| LostVolume.StaleDeleteLosesVolume | simplecsi/simplecsi/pkg/state/state.go:309-328 | an interleaving of four calls of two processes, from an empty config map, that loses a volume nobody deleted |
| Ordering.SortSorts | simplecsi/simplecsi/pkg/state/state.go:391-407 | the sort gives a sorted permutation |
| Ordering.SortedIsUnique | simplecsi/simplecsi/pkg/hostpath/controllerserver/controllerserver.go:717-722 | any two sorted arrangements by distinct keys are equal, so the choice of algorithm does not matter |
| Ordering.EqualWhenSorted | simplecsi/simplecsi/pkg/state/state.go:391-407 | sorted lists are equal exactly if the lists are equal as multisets |
| Ordering.SortStrings | simplecsi/simplecsi/pkg/state/state.go:397-398 | sorts an array in place |
| Ordering.EqualIDs | simplecsi/simplecsi/pkg/state/state.go:391-407 | true exactly if the lists are equal as multisets; leaves both arrays sorted, unless their lengths differ |
| GroupServer.SnapshotServer.CreateSnapshot | simplecsi/simplecsi/pkg/hostpath/controllerserver/controllerserver.go:573-652 | reply, memory and cell of the decision |
| GroupServer.SnapshotServer.DeleteSnapshot | simplecsi/simplecsi/pkg/hostpath/controllerserver/controllerserver.go:654-683 | reply, memory and cell of the decision; the group check never fires |
| GroupServer.SnapshotServer.CreateVolumeGroupSnapshot | simplecsi/simplecsi/pkg/hostpath/groupcontrollerserver/groupcontrollerserver.go:40-169 | reply, memory and cell of the decision, loop by loop; a failure half-way leaves the snapshots made so far |
| GroupServer.SnapshotServer.DeleteVolumeGroupSnapshot | simplecsi/simplecsi/pkg/hostpath/groupcontrollerserver/groupcontrollerserver.go:171-215 | reply, memory and cell: deletes members one by one, then the group |
| GroupServer.SnapshotServer.GetVolumeGroupSnapshot | simplecsi/simplecsi/pkg/hostpath/groupcontrollerserver/groupcontrollerserver.go:217-269 | reply, and the in-place sorting of the stored ID list |
| GroupServer.SnapshotServer.Handle | simplecsi/simplecsi/pkg/hostpath/groupcontrollerserver/groupcontrollerserver.go:40-269 | every snapshot and group call, by its handler: memory and cell of the specification |
| GroupServer.SnapshotServer.ReuseGroup | simplecsi/simplecsi/pkg/hostpath/groupcontrollerserver/groupcontrollerserver.go:61-97 | the reply for a group of that name that exists |
| GroupServer.SnapshotServer.TakeSnapshots | simplecsi/simplecsi/pkg/hostpath/groupcontrollerserver/groupcontrollerserver.go:114-155 | the loop over source volumes stops at the first failure and leaves the snapshots made before |
| GroupServer.SnapshotServer.TakeSnapshot | simplecsi/simplecsi/pkg/hostpath/groupcontrollerserver/groupcontrollerserver.go:114-155 | one round of that loop |
| GroupServer.FailureStays | simplecsi/simplecsi/pkg/hostpath/groupcontrollerserver/groupcontrollerserver.go:114-155 | once a member fails, the later rounds change nothing |
| GroupInvariants.RunKeepsGroups | simplecsi/simplecsi/pkg/hostpath/groupcontrollerserver/groupcontrollerserver.go:99-212 | in every run, in memory and in the cell, the IDs of each group resolve to exactly the snapshots that carry its ID, and their volumes are its source volumes as a multiset |
| GroupInvariants.DropKeepsGroupsExactly | simplecsi/simplecsi/pkg/hostpath/controllerserver/controllerserver.go:654-683 | removing a snapshot keeps all groups whole if and only if it is no member of one |
| GroupInvariants.CreateGroupOk | simplecsi/simplecsi/pkg/hostpath/groupcontrollerserver/groupcontrollerserver.go:99-159 | creating a group, or failing half-way, keeps the groups whole |
| GroupInvariants.RepeatedCreateGroup | simplecsi/simplecsi/pkg/hostpath/groupcontrollerserver/groupcontrollerserver.go:61-97 | a repeated creation with the same source volumes in any order returns the group with exactly its member snapshots; the cell stays, and in memory at most the order of its source volumes changes |
| GroupInvariants.GroupsDisjoint | simplecsi/simplecsi/pkg/hostpath/groupcontrollerserver/groupcontrollerserver.go:99-159 | no snapshot is in two groups |
| GroupInvariants.DeleteGroupRemovesMembers | simplecsi/simplecsi/pkg/hostpath/groupcontrollerserver/groupcontrollerserver.go:189-212 | deleting a group removes exactly its members and keeps the order of the rest |
| GroupInvariants.SortedGroupOk | simplecsi/simplecsi/pkg/state/state.go:383-407 | sorting the lists of a stored group in place keeps it whole, although positions no longer pair up |
| GroupInvariants.OpKeepsVolumes | simplecsi/simplecsi/pkg/state/state.go:309-375 | call by call: creating and getting snapshots and groups keep the stored volumes; a deletion that finds something keeps them if and only if the process remembers them |
| GroupInvariants.RewriteStores | simplecsi/simplecsi/pkg/state/state.go:320-375 | after a deletion that finds something, what the process remembered is stored, without exactly what the call deletes |
| GroupInvariants.RewriteKeepsOthers | simplecsi/simplecsi/pkg/state/state.go:320-375 | it keeps the other stored snapshots and groups, and brings none back, if and only if the process remembers those that are stored |
| GroupInvariants.OpKeepsInStep | simplecsi/simplecsi/pkg/state/state.go:285-375 | a process that remembers what is stored, up to the order inside groups, still does after each of its own calls |
| GroupInvariants.OpIsSnapshotCall | simplecsi/simplecsi/pkg/state/state.go:285-375 | for the volume RPCs such a call only replaces snapshots and groups, under exactly that condition |
| SnapshotEffects.SnapshotEffect | simplecsi/simplecsi/pkg/hostpath/controllerserver/controllerserver.go:573-652 | a request for a name that is not remembered succeeds if and only if the volume is stored and can be copied, and then stores exactly one more snapshot, of that name and volume, of the size of the volume and ready to use |
| SnapshotEffects.RepeatedSnapshot | simplecsi/simplecsi/pkg/hostpath/controllerserver/controllerserver.go:590-606 | after a success and any calls of the process that keep the snapshot, the same request gives the same snapshot, the name with another volume is refused with AlreadyExists, and neither changes anything |
| SnapshotEffects.RepeatedAtOnce | simplecsi/simplecsi/pkg/hostpath/controllerserver/controllerserver.go:590-606 | right after a success the request gives the same snapshot if and only if the name was remembered or stored nowhere |
| SnapshotEffects.StaleName | simplecsi/simplecsi/pkg/hostpath/controllerserver/controllerserver.go:590-606 | a process that does not remember a stored snapshot makes a second one of its name, and then answers with the first |
| SnapshotEffects.DeleteReply | simplecsi/simplecsi/pkg/hostpath/controllerserver/controllerserver.go:654-683 | deleting is done, known or not; a known snapshot is gone, from memory and cell, and no other |
| SnapshotEffects.GroupEffect | simplecsi/simplecsi/pkg/hostpath/groupcontrollerserver/groupcontrollerserver.go:99-169 | a new group succeeds if and only if all its source volumes are stored and can be copied; then it and one snapshot of each, in order, are stored and returned; otherwise those before the first failing volume, no group, and its code |
| SnapshotEffects.GetGroupReply | simplecsi/simplecsi/pkg/hostpath/groupcontrollerserver/groupcontrollerserver.go:217-269 | a known group with a matching ID list, in any order, is answered with exactly its members; any other list is refused |
| SnapshotEffects.OtherSources | simplecsi/simplecsi/pkg/hostpath/groupcontrollerserver/groupcontrollerserver.go:61-97 | a remembered name with other source volumes is refused |
| SnapshotEffects.UnknownGroup | simplecsi/simplecsi/pkg/hostpath/groupcontrollerserver/groupcontrollerserver.go:171-269 | getting an unknown group fails, deleting it is done |
| SnapshotEffects.DeleteGroupReply | simplecsi/simplecsi/pkg/hostpath/groupcontrollerserver/groupcontrollerserver.go:171-215 | deleting a known group is done |
| SnapshotEffects.BadRequest | simplecsi/simplecsi/pkg/hostpath/controllerserver/controllerserver.go:573-590 | requests without a name or a source, and single snapshots of an ephemeral driver, are refused and change nothing |
| Paging.ListSnapshots | simplecsi/simplecsi/pkg/hostpath/controllerserver/controllerserver.go:685-794 | the reply for a lookup by ID, by source volume, or of a page |
| Paging.ListPage | simplecsi/simplecsi/pkg/hostpath/controllerserver/controllerserver.go:717-793 | a page from a token, in int32 arithmetic, with the errors and panics |
| Paging.FillPage | simplecsi/simplecsi/pkg/hostpath/controllerserver/controllerserver.go:761-793 | the size of the page, its entries and the next token |
| Paging.CopyEntries | simplecsi/simplecsi/pkg/hostpath/controllerserver/controllerserver.go:770-783 | the loop that fills the page; it panics exactly if an index is out of range |
| Paging.ByID | simplecsi/simplecsi/pkg/hostpath/controllerserver/controllerserver.go:694-705 | listing by ID gives exactly the snapshot with that ID |
| Paging.RejectedExactly | simplecsi/simplecsi/pkg/hostpath/controllerserver/controllerserver.go:743-760 | a token is rejected if and only if it is no 32-bit number or points beyond the end |
| Paging.BySourceCompleteness | simplecsi/simplecsi/pkg/hostpath/controllerserver/controllerserver.go:706-715 | listing by source volume gives the first one, so it is complete if and only if the volume has at most one snapshot |
| Paging.PageFacts | simplecsi/simplecsi/pkg/hostpath/controllerserver/controllerserver.go:761-793 | the entries of a page and whether and where its token continues |
| Paging.WalkIsSuffix | simplecsi/simplecsi/pkg/hostpath/controllerserver/controllerserver.go:717-793 | following tokens ends and gives everything from the token on |
| Paging.PagesAreAllSnapshots | simplecsi/simplecsi/pkg/hostpath/controllerserver/controllerserver.go:717-793 | following NextToken from the empty token with any positive page size gives all snapshots once, sorted by ID |
| Paging.CrashExactly | simplecsi/simplecsi/pkg/hostpath/controllerserver/controllerserver.go:685-783 | the RPC panics if and only if it lists everything and the token is a numeral from 2^31 up to 2^32, or the page size is negative and the token is empty or a numeral within the list |
| Paging.PageCrashes | simplecsi/simplecsi/pkg/hostpath/controllerserver/controllerserver.go:737-783 | the same for lists of any length, in int32 arithmetic: the position read from the token is not beyond the end, and it or the page size is negative |
| Paging.WholeListExactly | simplecsi/simplecsi/pkg/hostpath/controllerserver/controllerserver.go:737-768 | a request for everything gets the whole list if and only if its length fits into an int32 |
| Decimal.ParsePrint | simplecsi/simplecsi/pkg/hostpath/controllerserver/controllerserver.go:743-788 | a printed token reads back as its number within the limit |
| IpTables.Netfilter.ApplyWithoutFlush | simplecni/pkg/utils/network/iptables.go:279-290 | table blocks commit one after the other, each as a whole; a refused block ends the run |
| IpTables.IpTablesRulesExist | simplecni/pkg/utils/network/iptables.go:64-94 | true exactly if every rule is present and every managed chain exists |
| IpTables.IpTablesCleanAndBuild | simplecni/pkg/utils/network/iptables.go:97-142 | creates the missing managed chains and builds, per table, a delete for each rule that was there and an append for each rule |
| IpTables.IpTablesBootstrap | simplecni/pkg/utils/network/iptables.go:145-162 | applies that transaction |
| IpTables.EnsureIPTables | simplecni/pkg/utils/network/iptables.go:164-182 | nothing if all rules exist, else a bootstrap |
| IpTables.TeardownIPTables | simplecni/pkg/utils/network/iptables.go:184-227 | applies a delete for each listed rule that was there |
| RuleOrder.BootstrapEffect | simplecni/pkg/utils/network/iptables.go:97-162 | every chain becomes its old content without the first copy of each rule, then the rules in order; the transaction is never refused; only missing managed chains are added |
| RuleOrder.BootstrapNeverFails | simplecni/pkg/utils/network/iptables.go:97-162 | even if rules are listed twice or chains hold several copies, every delete finds its rule, and no rule disappears |
| RuleOrder.BootstrapIdempotent | simplecni/pkg/utils/network/iptables.go:97-162 | a second bootstrap, in any table order, changes nothing if each managed rule was there at most once |
| RuleOrder.BlockEffect | simplecni/pkg/utils/network/iptables.go:97-142 | the effect of the lines of one table |
| RuleTeardown.TeardownExactly | simplecni/pkg/utils/network/iptables.go:184-227 | a teardown is carried out if and only if no rule is listed more often than its chain holds it; a refused table keeps all its chains |
| RuleTeardown.TeardownUndoesBootstrap | simplecni/pkg/utils/network/iptables.go:97-227 | teardown after bootstrap is always carried out, and gives back every chain, apart from created empty ones, if and only if no managed rule was there before |
| RuleTeardown.RepeatedRuleRefused | simplecni/pkg/utils/network/iptables.go:184-227 | a rule in force that is listed more often than it is there makes the teardown fail and its table stay |
| EnsureLoop.BootstrapPutsInForce | simplecni/pkg/utils/network/iptables.go:97-162 | after a bootstrap the managed rules are in force in order, each once, if and only if none stood twice before |
| EnsureLoop.ExistingIsInForce | simplecni/pkg/utils/network/iptables.go:64-94 | checking existence only is enough while the rules present are in order |
| EnsureLoop.EnsurePutsInForce | simplecni/pkg/utils/network/iptables.go:164-182 | each round succeeds and leaves all rules in force |
| EnsureLoop.EditKeepsOrder | simplecni/pkg/backend/iptmanager/iptmanager.go:213-225 | deleting any rule, inserting foreign ones, adding or dropping chains keeps the present managed rules in order |
| EnsureLoop.LoopKeepsRules | simplecni/pkg/backend/iptmanager/iptmanager.go:192-226 | over any run of the loop against such outsiders: all rules in force after each round, in order and at most once in between |
| EnsureLoop.LoopsAreSeparate | simplecni/pkg/backend/iptmanager/iptmanager.go:126-160 | a round for rules of one table leaves every chain of the other tables alone |
| Loops.InterleavedLoops | simplecni/pkg/backend/iptmanager/iptmanager.go:115-226 | any interleaving of the loops of several rule lists, on different tables, and of outsiders: in every list the rules present are in order, each at most once, and after a round of a loop its list is in force |
| Loops.NodeKeepsRules | simplecni/pkg/backend/iptmanager/iptmanager.go:51-226 | from such a start on, this holds for the loops that were started: the forward one, and the masquerade one if the recycling step succeeded |
| Loops.StartedInForce | simplecni/pkg/backend/iptmanager/iptmanager.go:115-160 | after the start the forward rules are in force if and only if their jump stood at most once before, and the masquerade rules, if their loop was started, if and only if their jump stood at most once, or twice if the recycling step found the managed chain and took one away |
| Rules.MasqRulesManaged | simplecni/pkg/backend/iptmanager/rules.go:60-102 | the IPv4 masquerade rules are pairwise distinct for any two networks and need only the POSTROUTING chain |
| Rules.MasqIP6RulesManaged | simplecni/pkg/backend/iptmanager/rules.go:10-47 | the IPv6 rules are pairwise distinct if and only if the two networks print differently |
| Rules.ForwardRulesManaged | simplecni/pkg/backend/iptmanager/rules.go:49-58 | the forward rules are distinct and need only the FORWARD chain |
| Manager.IPTablesManager.SetupIP4Tables | simplecni/pkg/backend/iptmanager/iptmanager.go:192-212 | bootstrap, then append the rules to the clean-up list |
| Manager.IPTablesManager.DeleteIP4Tables | simplecni/pkg/backend/iptmanager/iptmanager.go:263-283 | a teardown of the rules; if the checks of single rules do not answer, it fails and changes nothing, unless every rule needs a managed chain that is not there |
| Manager.IPTablesManager.PrepareMasqRules | simplecni/pkg/backend/iptmanager/iptmanager.go:115-127 | the recycling step, which succeeds if and only if it is not needed, its checks answer or there is no managed nat chain; then that chain is emptied, otherwise nothing changes |
| Manager.IPTablesManager.Init | simplecni/pkg/backend/iptmanager/iptmanager.go:51-75 | the kernel and the clean-up list after the start, for either order of the two goroutines; the masquerade loop is started if and only if the recycling step succeeds |
| Manager.RecycleEffect | simplecni/pkg/backend/iptmanager/iptmanager.go:115-126 | for all networks the teardown of the recycling step is accepted, and without the managed chain it changes nothing |
| Manager.AlwaysRecycles | simplecni/pkg/backend/iptmanager/cidr.go:22-39 | with a cluster network the step runs on every start, and succeeds if and only if its checks answer or there is no managed nat chain |
| Manager.RecycledChains | simplecni/pkg/backend/iptmanager/iptmanager.go:115-126 | the recycling step keeps every chain and the rules of all other tables, and takes exactly one copy of the jump away if the managed chain and the jump were there |
| Manager.IPTablesManager.CleanUp | simplecni/pkg/backend/iptmanager/iptmanager.go:77-94 | a teardown of the clean-up list |
| Manager.StartedChain | simplecni/pkg/backend/iptmanager/iptmanager.go:115-160 | after the start the managed nat chain holds exactly the masquerade rules, in order, if the recycling step succeeded; otherwise no nat chain has changed |
| Manager.StartedMasquerades | simplecni/pkg/backend/iptmanager/iptmanager.go:51-75 | from start to packet: exactly which packets the managed chain of a node masquerades whose masquerade loop was started |
| Manager.StartedVerdict | simplecni/pkg/backend/iptmanager/rules.go:72-100 | and which ones it hands back to the built-in chain |
| Manager.StartedForwards | simplecni/pkg/backend/iptmanager/rules.go:49-58 | after every start the managed forward chain accepts exactly the packets from and to the node's network and leaves the others, whatever it held before |
| Manager.StartedJumps | simplecni/pkg/backend/iptmanager/iptmanager.go:115-160 | after the start FORWARD ends with the jump to its managed chain, and POSTROUTING does if the masquerade loop was started |
| Manager.CleanUpLeavesMasquerade | simplecni/pkg/backend/iptmanager/iptmanager.go:51-94 | a clean-up after the start is refused if and only if the masquerade loop was started, because the list then names its rules twice; then all nat chains stay |
| Masquerade.IptablesMeaning | simplecni/pkg/backend/iptmanager/rules.go:72-100 | what each rule of the managed chain asks of a packet, read off its tokens and CIDR texts |
| Masquerade.IptablesMasqueraded | simplecni/pkg/backend/iptmanager/rules.go:72-100 | exactly which packets the iptables chain masquerades |
| Masquerade.ForwardVerdict | simplecni/pkg/backend/iptmanager/rules.go:49-58 | the forward rules, read off their tokens, accept exactly the packets from and to the network |
| Nftables.NFTablesManager.AddMasqRules | simplecni/pkg/backend/iptmanager/nftmanager.go:250-317 | adds the six rules of the family to the transaction |
| Nftables.NFTablesManager.SetupAndEnsureMasqRules | simplecni/pkg/backend/iptmanager/nftmanager.go:195-247 | whatever the chains held, they then hold the masquerade rules, with the node network passed as the cluster network, and the IPv4 networks also in the IPv6 table if nft takes them there |
| Nftables.NftMasqueraded | simplecni/pkg/backend/iptmanager/nftmanager.go:212-317 | exactly which packets the nftables chain masquerades, for a node network inside the cluster network |
| Nftables.NftVerdictOf | simplecni/pkg/backend/iptmanager/nftmanager.go:212-317 | and which ones it hands back |
| Nftables.BackEnds | simplecni/pkg/backend/iptmanager/nftmanager.go:212-317 | where the two back ends agree and differ, for every packet and mark; neither masquerades traffic to local pods or from local pods to the cluster |
| Payload.BuildIPTablesRestorePayload | simplecni/pkg/utils/network/iptables.go:320-346 | the text is that of the tables in iteration order |
| Payload.BuildLine | simplecni/pkg/utils/network/iptables.go:325-341 | one line: tokens separated by spaces, a comment in quotes |
| Payload.ReadBack | simplecni/pkg/utils/network/iptables.go:320-346 | a parser recovers the tables and token lists, for any order, if and only if no line is the single token COMMIT |
| Payload.PayloadInjective | simplecni/pkg/utils/network/iptables.go:320-346 | without such lines, equal payloads come from equal maps |
| Payload.CommitLineConfuses | simplecni/pkg/utils/network/iptables.go:320-346 | with such a line two different maps give the same payload |
| Coschedule.CoschedulePlugin.CalculateAssignedPods | simpleschedulerframework/pkg/plugins/coschedule/core.go:93-112 | the number of pods of the group in the snapshot that hold a node |
| Coschedule.CoschedulePlugin.CheckPodNum | simpleschedulerframework/pkg/plugins/coschedule/core.go:17-41 | passes exactly if enough pods of the group are not being deleted |
| Coschedule.CoschedulePlugin.PreFilter | simpleschedulerframework/pkg/plugins/coschedule/plugins.go:54-91 | succeeds exactly if the group did not fail recently, is found and, if a pod of it came by before, has its queue and enough pods; Unschedulable exactly if it failed recently or is not found; on success the name of the group joins the permitted ones, and nothing else changes |
| Coschedule.CoschedulePlugin.PostFilter | simpleschedulerframework/pkg/plugins/coschedule/plugins.go:109-151 | who is rejected, and the two caches |
| Coschedule.CoschedulePlugin.Permit | simpleschedulerframework/pkg/plugins/coschedule/plugins.go:153-210 | the status and the waiting pods that are left |
| Gang.RunKeepsGang | simpleschedulerframework/pkg/plugins/coschedule/plugins.go:120-209 | in every run a group with a waiting pod has fewer pods holding nodes than its quorum |
| Gang.ReleaseAtQuorum | simpleschedulerframework/pkg/plugins/coschedule/plugins.go:162-173 | a waiting pod is allowed, or a pod of a group permitted, only when the quorum then holds nodes; no waiting pod loses its node |
| Gang.OtherwiseGivesUp | simpleschedulerframework/pkg/plugins/coschedule/plugins.go:120-137 | a waiting pod that stops waiting in any other way has given up its node |
| Gang.PostFilterAtQuorum | simpleschedulerframework/pkg/plugins/coschedule/plugins.go:120-137 | at or above quorum PostFilter rejects nobody; below it, exactly the waiting pods of the group |
| Gang.RunKeepsGangs | simpleschedulerframework/pkg/plugins/coschedule/plugins.go:109-210 | as long as no allowed pod is deleted, each group is either short of its quorum with all its pods waiting, or at quorum with none waiting |
| Gang.IdleRuns | simpleschedulerframework/pkg/plugins/coschedule/plugins.go:109-210 | from idle nodes every run keeps both invariants |
| Gang.PermitDecides | simpleschedulerframework/pkg/plugins/coschedule/plugins.go:153-210 | Permit refuses exactly the pods of unknown groups, lets pods without a group pass, and one of a known group if and only if it completes the quorum, with all waiting pods of that group and no others; the rest wait |
| Gang.GangsForm | simpleschedulerframework/pkg/plugins/coschedule/plugins.go:153-210 | from idle nodes, if pods of known groups are scheduled in any order and none fails, every pod holds its node, the pods of each group with a quorum go ahead, and those of the others wait |
| Gang.PostFilterCaches | simpleschedulerframework/pkg/plugins/coschedule/plugins.go:109-151 | PostFilter leaves a group above its quorum alone, otherwise forgets it and backs it off if it has pods enough |
| Gang.SoundMeans | simpleschedulerframework/pkg/plugins/coschedule/plugins.go:54-91 | the check of a remembered group: its queue, or the default one, exists and enough different pods are alive |
| Gang.FullNameTells | simpleschedulerframework/pkg/plugins/coschedule/core.go:52-58 | namespace/group tells both, as namespaces have no slash |
| Gang.FirstPodIsUnchecked | simpleschedulerframework/pkg/plugins/coschedule/plugins.go:54-91 | the first pod of a group passes unchecked, and the next one passes if and only if the queue exists and enough pods are alive |
| Gang.EnoughPodsCounts | simpleschedulerframework/pkg/plugins/coschedule/core.go:17-41 | enough pods: the number of different pods of the group that are not being deleted reaches the quorum |
| Gang.BackoffSpreads | simpleschedulerframework/pkg/plugins/coschedule/plugins.go:109-151 | which pods a failing pod backs off: if it has a group, exactly those of its group, and only if the group is not above its quorum and has pods enough for it; if it has none, exactly all pods without a group |
| Gang.BackoffLasts | simpleschedulerframework/pkg/plugins/coschedule/plugins.go:54-146 | whatever happens until the entry of their own group expires, those pods are refused; entries of other groups may expire |
| Cidr.ParsePrint | simplecni/pkg/backend/vxlan/vxlan.go:85-90 | reading a printed network gives it back with its host bits cleared |
| Cidr.PrintInjective | simplecni/pkg/backend/vxlan/vxlan.go:85-90 | exactly the networks without host bits survive, and different networks print differently |
| SubnetEnv.WriteSubnetFile | simplecni/pkg/utils/files/file.go:25-30 | one line per key, in upper case, in the iteration order |
| SubnetEnv.LoadSubnetEnv | simplecni/cniplugin/simple.go:130-223 | line by line: fields, errors, and the index out of range |
| SubnetEnv.LoadNetworks | simplecni/cniplugin/simple.go:143-155 | the networks of a list without repetitions, or an error |
| SubnetEnv.IsSubnetAlreadyPresent | simplecni/cniplugin/simple.go:113-128 | true exactly if the network is in the list |
| SubnetEnv.Missing | simplecni/cniplugin/simple.go:84-100 | empty exactly if a subnet and IPMASQ are there |
| SubnetEnv.FileBack | simplecni/pkg/utils/files/file.go:25-30 | whatever the key order, the reader sees each key in upper case and its value without a final carriage return |
| SubnetEnv.MapBack | simplecni/pkg/utils/files/file.go:25-30 | the map comes back if and only if its keys are upper case and no value ends in a carriage return |
| SubnetEnv.LeaseLoads | simplecni/pkg/backend/vxlan/vxlan.go:81-92 | for every lease and key order the file loads if and only if the lease has a network, which it then gives back |
| SubnetFields.FileFields | simplecni/cniplugin/simple.go:130-223 | any file loads if and only if no line is a key alone or has an unreadable value, and it sets a subnet and IPMASQ; then every field holds what the last line of its key says, or nothing |
| SubnetEnv.BareKeyStops | simplecni/cniplugin/simple.go:130-215 | a file stops the plugin with an index out of range if and only if some line is a known key alone and the lines before it are read without an error |

## Left out

- The registration of the services: simplecsi/simplecsi/pkg/server/serve.go:85-103 registers no group controller, so the group calls are modelled as their handlers stand.
- gRPC, request validation tables, logging, real mounts, loop devices, Kubernetes jobs and exec calls: they are steps that succeed or fail.
- The JSON codec of the config map: taken as the identity.
- Failed reads of the config map: the store then goes on with empty lists, so the statements about the store need a cell that answers.
- Interleaving inside one RPC across processes, and the separate mutex of the group controller: every RPC is one step.
- Aliasing of slices in the volume RPCs: Attached, Staged and Published are values that the RPC writes back as a whole; the arrays of equalIDs are modelled in place.
- Server.HostPath.GetAttachCount: does not model wrap-around of the int64 count, which would need 2^63 attached volumes.
- Paging.PagesAreAllSnapshots: requires fewer than 2^31 snapshots, since the code converts the length to int32; WholeListExactly shows that it has to.
- Paging.ListSnapshots: takes the sort of the standard library as any sort by ID; SortedIsUnique shows that they all agree.
- ListVolumes and its paging, ValidateVolumeCapabilities, ControllerGetVolume, ControllerModifyVolume, NodeExpandVolume and statistics: they add no state of their own.
- Mutable parameters of CreateVolume: only their validation is left out.
- Manager.IPTablesManager.Init: leaves out IPv6 and the return when `subnet.env` cannot be read (simplecni/pkg/backend/iptmanager/cidr.go:28-37); the two goroutines start in either order, not interleaved, as they work on different tables. Whether the checks of the recycling step answer is a parameter.
- Append to the clean-up list without a lock: a lost append is not modelled.
- Manager.IPTablesManager.CleanUp: tears down the IPv4 list only; the IPv6 rule list is modelled, the IPv6 kernel is not, and the only caller (simplecni/pkg/backend/vxlan/vxlan.go:115) gives no IPv6 node network.
- Nftables.NftMasqueraded: reads the IPv4 chain; the IPv6 chain is filled with IPv4 networks and only if there is an IPv6 node network, which the only caller does not give.
- IpTables.Netfilter.ApplyWithoutFlush: of the jump targets, only the two managed chains are required to exist.
- Nftables.NFTablesManager.SetupAndEnsureMasqRules: leaves out the comments of the chains; whether nft takes IPv4 networks in the IPv6 table is a parameter.
- The forward chain of the nftables back end: its two rules accept, as the policy does.
- Masquerade.IptablesMasqueraded: reads the managed chain only; what foreign rules of POSTROUTING do before the jump is not modelled.
- Coschedule.CoschedulePlugin.Permit: leaves out the activation of sibling pods, which only wakes the scheduling queue.
- Unreserve of the plugin: it returns at once for every pod whose group is found, and would dereference nil otherwise.
- Gang.RunKeepsGang: takes the snapshot as fresh and the quorum of each group as fixed.
- Expiry of the two caches is a step that may happen at any time; the durations are not modelled.
- SubnetEnv.LoadSubnetEnv: leaves out the 64 KiB limit of the line scanner and IPv4 addresses mapped into IPv6 text; IPv6 networks come from a parser that is a parameter.
- SubnetEnv.WriteSubnetFile: leaves out file creation and the rename; upper-casing is that of ASCII letters.
- The wireguard back end, the webhook server, generated clients, the device plugin and the file-backed API store: no hard property.
