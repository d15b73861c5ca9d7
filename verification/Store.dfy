/** The driver's persisted state: records, the shared config map, and each process's copy. */
module Store {
  import opened Common
  import opened KeyedList

  datatype AccessType = MountAccess | BlockAccess

  /** Staged and Published are ordered sets of paths (the Go type Strings). */
  datatype Volume = Volume(
    volName: string, volID: string, volSize: Int64, volPath: string, accessType: AccessType,
    parentVolID: string, parentSnapID: string, ephemeral: bool, nodeID: string, kind: string,
    readOnlyAttach: bool, attached: bool, volumeNode: string,
    staged: seq<string>, published: seq<string>)

  datatype Snapshot = Snapshot(
    name: string, id: string, volID: string, path: string, creationTime: int,
    sizeBytes: Int64, readyToUse: bool, groupSnapshotID: string)

  datatype GroupSnapshot = GroupSnapshot(
    name: string, id: string, snapshotIDs: seq<string>, sourceVolumeIDs: seq<string>,
    creationTime: int, readyToUse: bool)

  /** Everything that is written to the config map in one piece. */
  datatype Resources = Resources(
    volumes: seq<Volume>, snapshots: seq<Snapshot>, groups: seq<GroupSnapshot>)

  const NOTHING := Resources([], [], [])

  function VolumeID(v: Volume): string { v.volID }
  function VolumeName(v: Volume): string { v.volName }
  function SnapshotID(s: Snapshot): string { s.id }
  function SnapshotName(s: Snapshot): string { s.name }
  function GroupID(g: GroupSnapshot): string { g.id }
  function GroupName(g: GroupSnapshot): string { g.name }

  /** Volume IDs and volume names are both unique. */
  ghost predicate Wf(vs: seq<Volume>) {
    Distinct(VolumeID, vs) && Distinct(VolumeName, vs)
  }

  /**
   * What a process sees after reloading: volumes and snapshots are forgotten first, group
   * snapshots are not, and an empty cell overwrites nothing.
   */
  function Reload(memory: Resources, cell: Option<Resources>): Resources {
    match cell
    case None => Resources([], [], memory.groups)
    case Some(r) => r
  }

  /** The one config map that all processes share. None: no data stored yet. */
  class ConfigMap {
    var data: Option<Resources>

    constructor ()
      ensures data == None
    {
      data := None;
    }
  }

  /** One process's view of the state. Volume operations reload it, the others do not. */
  class State {
    const cm: ConfigMap
    var volumes: seq<Volume>
    var snapshots: seq<Snapshot>
    var groups: seq<GroupSnapshot>

    ghost function Memory(): Resources
      reads this
    {
      Resources(volumes, snapshots, groups)
    }

    ghost function Fresh(): Resources
      reads this, cm
    {
      Reload(Memory(), cm.data)
    }

    constructor (cm: ConfigMap)
      ensures this.cm == cm && Memory() == Reload(NOTHING, cm.data)
    {
      this.cm := cm;
      volumes, snapshots, groups := [], [], [];
      new;
      Restore();
    }

    method Dump()
      modifies cm
      ensures cm.data == Some(Memory())
    {
      cm.data := Some(Resources(volumes, snapshots, groups));
    }

    method Restore()
      modifies this
      ensures Memory() == old(Fresh())
      ensures cm.data.None? ==> volumes == [] && snapshots == [] && groups == old(groups)
      ensures cm.data.Some? ==> cm.data == Some(Memory())
    {
      volumes, snapshots := [], [];
      if cm.data.Some? {
        volumes, snapshots, groups :=
          cm.data.value.volumes, cm.data.value.snapshots, cm.data.value.groups;
      }
    }

    method GetVolumeByID(volID: string) returns (r: Option<Volume>)
      modifies this
      ensures Memory() == old(Fresh())
      ensures r == Find(VolumeID, old(Fresh()).volumes, volID)
    {
      Restore();
      for i := 0 to |volumes|
        invariant forall j | 0 <= j < i :: volumes[j].volID != volID
      {
        if volumes[i].volID == volID {
          IndexIs(VolumeID, volumes, volID, i);
          return Some(volumes[i]);
        }
      }
      IndexIs(VolumeID, volumes, volID, |volumes|);
      return None;
    }

    method GetVolumeByName(volName: string) returns (r: Option<Volume>)
      modifies this
      ensures Memory() == old(Fresh())
      ensures r == Find(VolumeName, old(Fresh()).volumes, volName)
    {
      Restore();
      for i := 0 to |volumes|
        invariant forall j | 0 <= j < i :: volumes[j].volName != volName
      {
        if volumes[i].volName == volName {
          IndexIs(VolumeName, volumes, volName, i);
          return Some(volumes[i]);
        }
      }
      IndexIs(VolumeName, volumes, volName, |volumes|);
      return None;
    }

    method GetVolumes() returns (r: seq<Volume>)
      modifies this
      ensures Memory() == old(Fresh())
      ensures r == old(Fresh()).volumes
    {
      Restore();
      r := volumes;
    }

    method UpdateVolume(update: Volume)
      modifies this, cm
      ensures cm.data == Some(Memory())
      ensures Memory() == old(Fresh()).(volumes := Put(VolumeID, old(Fresh()).volumes, update))
    {
      Restore();
      for i := 0 to |volumes|
        invariant Memory() == old(Fresh())
        invariant forall j | 0 <= j < i :: volumes[j].volID != update.volID
      {
        if volumes[i].volID == update.volID {
          IndexIs(VolumeID, volumes, update.volID, i);
          volumes := volumes[i := update];
          Dump();
          return;
        }
      }
      IndexIs(VolumeID, volumes, update.volID, |volumes|);
      volumes := volumes + [update];
      Dump();
    }

    method DeleteVolume(volID: string)
      modifies this, cm
      ensures Memory() == old(Fresh()).(volumes := Drop(VolumeID, old(Fresh()).volumes, volID))
      ensures cm.data == if Find(VolumeID, old(Fresh()).volumes, volID).Some?
                         then Some(Memory()) else old(cm.data)
    {
      Restore();
      for i := 0 to |volumes|
        invariant Memory() == old(Fresh())
        invariant forall j | 0 <= j < i :: volumes[j].volID != volID
      {
        if volumes[i].volID == volID {
          IndexIs(VolumeID, volumes, volID, i);
          volumes := volumes[..i] + volumes[i + 1..];
          Dump();
          return;
        }
      }
      IndexIs(VolumeID, volumes, volID, |volumes|);
    }

    method GetSnapshotByID(id: string) returns (r: Option<Snapshot>)
      ensures r == Find(SnapshotID, snapshots, id)
    {
      for i := 0 to |snapshots|
        invariant forall j | 0 <= j < i :: snapshots[j].id != id
      {
        if snapshots[i].id == id {
          IndexIs(SnapshotID, snapshots, id, i);
          return Some(snapshots[i]);
        }
      }
      IndexIs(SnapshotID, snapshots, id, |snapshots|);
      return None;
    }

    method GetSnapshotByName(name: string) returns (r: Option<Snapshot>)
      ensures r == Find(SnapshotName, snapshots, name)
    {
      for i := 0 to |snapshots|
        invariant forall j | 0 <= j < i :: snapshots[j].name != name
      {
        if snapshots[i].name == name {
          IndexIs(SnapshotName, snapshots, name, i);
          return Some(snapshots[i]);
        }
      }
      IndexIs(SnapshotName, snapshots, name, |snapshots|);
      return None;
    }

    method UpdateSnapshot(update: Snapshot)
      modifies this, cm
      ensures cm.data == Some(Memory())
      ensures Memory() == old(Memory()).(snapshots := Put(SnapshotID, old(snapshots), update))
    {
      for i := 0 to |snapshots|
        invariant Memory() == old(Memory())
        invariant forall j | 0 <= j < i :: snapshots[j].id != update.id
      {
        if snapshots[i].id == update.id {
          IndexIs(SnapshotID, snapshots, update.id, i);
          snapshots := snapshots[i := update];
          Dump();
          return;
        }
      }
      IndexIs(SnapshotID, snapshots, update.id, |snapshots|);
      snapshots := snapshots + [update];
      Dump();
    }

    method DeleteSnapshot(id: string)
      modifies this, cm
      ensures Memory() == old(Memory()).(snapshots := Drop(SnapshotID, old(snapshots), id))
      ensures cm.data == if Find(SnapshotID, old(snapshots), id).Some?
                         then Some(Memory()) else old(cm.data)
    {
      for i := 0 to |snapshots|
        invariant Memory() == old(Memory())
        invariant forall j | 0 <= j < i :: snapshots[j].id != id
      {
        if snapshots[i].id == id {
          IndexIs(SnapshotID, snapshots, id, i);
          snapshots := snapshots[..i] + snapshots[i + 1..];
          Dump();
          return;
        }
      }
      IndexIs(SnapshotID, snapshots, id, |snapshots|);
    }

    method GetGroupSnapshotByID(id: string) returns (r: Option<GroupSnapshot>)
      ensures r == Find(GroupID, groups, id)
    {
      for i := 0 to |groups|
        invariant forall j | 0 <= j < i :: groups[j].id != id
      {
        if groups[i].id == id {
          IndexIs(GroupID, groups, id, i);
          return Some(groups[i]);
        }
      }
      IndexIs(GroupID, groups, id, |groups|);
      return None;
    }

    method GetGroupSnapshotByName(name: string) returns (r: Option<GroupSnapshot>)
      ensures r == Find(GroupName, groups, name)
    {
      for i := 0 to |groups|
        invariant forall j | 0 <= j < i :: groups[j].name != name
      {
        if groups[i].name == name {
          IndexIs(GroupName, groups, name, i);
          return Some(groups[i]);
        }
      }
      IndexIs(GroupName, groups, name, |groups|);
      return None;
    }

    method UpdateGroupSnapshot(update: GroupSnapshot)
      modifies this, cm
      ensures cm.data == Some(Memory())
      ensures Memory() == old(Memory()).(groups := Put(GroupID, old(groups), update))
    {
      for i := 0 to |groups|
        invariant Memory() == old(Memory())
        invariant forall j | 0 <= j < i :: groups[j].id != update.id
      {
        if groups[i].id == update.id {
          IndexIs(GroupID, groups, update.id, i);
          groups := groups[i := update];
          Dump();
          return;
        }
      }
      IndexIs(GroupID, groups, update.id, |groups|);
      groups := groups + [update];
      Dump();
    }

    method DeleteGroupSnapshot(id: string)
      modifies this, cm
      ensures Memory() == old(Memory()).(groups := Drop(GroupID, old(groups), id))
      ensures cm.data == if Find(GroupID, old(groups), id).Some?
                         then Some(Memory()) else old(cm.data)
    {
      for i := 0 to |groups|
        invariant Memory() == old(Memory())
        invariant forall j | 0 <= j < i :: groups[j].id != id
      {
        if groups[i].id == id {
          IndexIs(GroupID, groups, id, i);
          groups := groups[..i] + groups[i + 1..];
          Dump();
          return;
        }
      }
      IndexIs(GroupID, groups, id, |groups|);
    }
  }
}
