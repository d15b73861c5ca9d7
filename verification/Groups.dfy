/** Snapshots and group snapshots: what each call does to a process's memory and to the cell. */
module Groups {
  import opened Common
  import opened KeyedList
  import opened Store
  import opened Ordering
  import opened Driver

  /** One process's in-memory lists and the shared cell. */
  datatype Proc = Proc(memory: Resources, cell: Option<Resources>)

  datatype GroupReply =
    | Ok
    | OneSnapshot(snap: Snapshot)
    | Group(id: string, members: seq<Snapshot>)
    | Error(code: Code)

  datatype Result = Result(proc: Proc, reply: GroupReply)

  datatype SnapshotEnv = SnapshotEnv(uuid: string, time: int, badOptions: bool, ok: bool)

  /** New IDs for the group and for each member, and the outcome of each copy. */
  datatype GroupEnv = GroupEnv(gid: string, ids: seq<string>, time: int, badOptions: bool, ok: seq<bool>)

  function SnapshotPath(cfg: Config, id: string): string { cfg.stateDir + "/" + id + ".snap" }

  /** Memory and cell after a save of what is in memory. */
  function Saved(m: Resources): Proc { Proc(m, Some(m)) }

  function Reloaded(p: Proc): Proc { Proc(Reload(p.memory, p.cell), p.cell) }

  // ---- single snapshots ----

  function CreateSnapshot(cfg: Config, p: Proc, name: string, vol: string, env: SnapshotEnv): Result {
    if cfg.ephemeral || name == "" || vol == "" then Result(p, Error(InvalidArgument))
    else match Find(SnapshotName, p.memory.snapshots, name)
      case Some(ex) => Result(p, if ex.volID == vol then OneSnapshot(ex) else Error(AlreadyExists))
      case None =>
        var q := Reloaded(p);
        match Find(VolumeID, q.memory.volumes, vol)
        case None => Result(q, Error(NotFound))
        case Some(v) =>
          if env.badOptions && v.accessType.MountAccess? then Result(q, Error(InvalidArgument))
          else if !env.ok then Result(q, Error(Internal))
          else
            var snap := Snapshot(name, env.uuid, vol, SnapshotPath(cfg, env.uuid), env.time, v.volSize, true, "");
            Result(Saved(q.memory.(snapshots := Put(SnapshotID, q.memory.snapshots, snap))), OneSnapshot(snap))
  }

  function DropSnapshot(p: Proc, id: string): Proc {
    var m := p.memory.(snapshots := Drop(SnapshotID, p.memory.snapshots, id));
    if Find(SnapshotID, p.memory.snapshots, id).Some? then Saved(m) else Proc(m, p.cell)
  }

  /**
   * The handler's guard asks for a lookup that failed and for a group ID in its empty result
   * at once, so it never refuses: members of groups are deleted like any snapshot.
   */
  function DeleteSnapshot(cfg: Config, p: Proc, id: string): Result {
    if cfg.ephemeral || id == "" then Result(p, Error(InvalidArgument))
    else Result(DropSnapshot(p, id), Ok)
  }

  // ---- groups ----

  datatype Partial = Partial(proc: Proc, made: seq<Snapshot>, failed: Option<Code>)

  predicate Supplied(vols: seq<string>, env: GroupEnv) { |env.ids| == |env.ok| == |vols| }

  function MemberSnapshot(cfg: Config, name: string, v: Volume, vol: string, id: string, env: GroupEnv): Snapshot {
    Snapshot(name + "-" + vol, id, vol, SnapshotPath(cfg, id), env.time, v.volSize, true, env.gid)
  }

  /** Snapshot the i-th source volume of the group. */
  function SnapshotMember(cfg: Config, q: Partial, name: string, vols: seq<string>, env: GroupEnv, i: nat): Partial
    requires Supplied(vols, env) && i < |vols|
  {
    var p := Reloaded(q.proc);
    match Find(VolumeID, p.memory.volumes, vols[i])
    case None => Partial(p, q.made, Some(NotFound))
    case Some(v) =>
      if env.badOptions && v.accessType.MountAccess? then Partial(p, q.made, Some(InvalidArgument))
      else if !env.ok[i] then Partial(p, q.made, Some(Internal))
      else
        var snap := MemberSnapshot(cfg, name, v, vols[i], env.ids[i], env);
        Partial(Saved(p.memory.(snapshots := Put(SnapshotID, p.memory.snapshots, snap))), q.made + [snap], None)
  }

  /** The state after the first k source volumes, or at the first failure: nothing is undone. */
  function SnapshotMembers(cfg: Config, p: Proc, name: string, vols: seq<string>, env: GroupEnv, k: nat): Partial
    requires Supplied(vols, env) && k <= |vols|
  {
    if k == 0 then Partial(p, [], None)
    else
      var q := SnapshotMembers(cfg, p, name, vols, env, k - 1);
      if q.failed.Some? then q else SnapshotMember(cfg, q, name, vols, env, k - 1)
  }

  /** Look up every ID, or None if one is missing. */
  function Resolve(snaps: seq<Snapshot>, ids: seq<string>): Option<seq<Snapshot>> {
    if ids == [] then Some([])
    else
      var n := |ids| - 1;
      match Resolve(snaps, ids[..n])
      case None => None
      case Some(r) =>
        match Find(SnapshotID, snaps, ids[n])
        case None => None
        case Some(s) => Some(r + [s])
  }

  /** What comparing a group's list in place leaves: sorted if the lengths agree. */
  function Compared(xs: seq<string>, ys: seq<string>): seq<string> {
    if |xs| == |ys| then Sorted(xs) else xs
  }

  function GroupMembers(p: Proc, g: GroupSnapshot): Result {
    match Resolve(p.memory.snapshots, g.snapshotIDs)
    case None => Result(p, Error(NotFound))
    case Some(members) => Result(p, Group(g.id, members))
  }

  function CreateGroup(cfg: Config, p: Proc, name: string, vols: seq<string>, env: GroupEnv): Result
    requires Supplied(vols, env)
  {
    if name == "" || vols == [] then Result(p, Error(InvalidArgument))
    else
      var i := Index(GroupName, p.memory.groups, name);
      if i < |p.memory.groups| then
        var g := p.memory.groups[i].(sourceVolumeIDs := Compared(p.memory.groups[i].sourceVolumeIDs, vols));
        var q := p.(memory := p.memory.(groups := p.memory.groups[i := g]));
        if multiset(p.memory.groups[i].sourceVolumeIDs) != multiset(vols) then Result(q, Error(AlreadyExists))
        else GroupMembers(q, g)
      else
        var q := SnapshotMembers(cfg, p, name, vols, env, |vols|);
        match q.failed
        case Some(code) => Result(q.proc, Error(code))
        case None =>
          var g := GroupSnapshot(name, env.gid, env.ids, vols, env.time, true);
          var m := q.proc.memory.(groups := Put(GroupID, q.proc.memory.groups, g));
          Result(Saved(m), Group(env.gid, q.made))
  }

  function DropAll(p: Proc, ids: seq<string>): Proc {
    if ids == [] then p else DropSnapshot(DropAll(p, ids[..|ids| - 1]), ids[|ids| - 1])
  }

  function DeleteGroup(p: Proc, gid: string): Result {
    if gid == "" then Result(p, Error(InvalidArgument))
    else match Find(GroupID, p.memory.groups, gid)
      case None => Result(p, Ok)
      case Some(g) =>
        var q := DropAll(p, g.snapshotIDs);
        Result(Saved(q.memory.(groups := Drop(GroupID, q.memory.groups, gid))), Ok)
  }

  function GetGroup(p: Proc, gid: string, ids: seq<string>): Result {
    if gid == "" then Result(p, Error(InvalidArgument))
    else
      var i := Index(GroupID, p.memory.groups, gid);
      if i == |p.memory.groups| then Result(p, Error(NotFound))
      else
        var g := p.memory.groups[i].(snapshotIDs := Compared(p.memory.groups[i].snapshotIDs, ids));
        var q := p.(memory := p.memory.(groups := p.memory.groups[i := g]));
        if multiset(p.memory.groups[i].snapshotIDs) != multiset(ids) then Result(q, Error(InvalidArgument))
        else GroupMembers(q, g)
  }

  // ---- all calls ----

  datatype Op =
    | SnapCreate(name: string, vol: string, senv: SnapshotEnv)
    | SnapDelete(id: string)
    | GroupCreate(name: string, vols: seq<string>, genv: GroupEnv)
    | GroupDelete(gid: string)
    | GroupGet(gid: string, ids: seq<string>)
      // a volume RPC of the same process: reload, and perhaps save a new volume list
    | VolumeCall(saves: bool, volumes: seq<Volume>)

  function Perform(cfg: Config, p: Proc, op: Op): Proc
    requires op.GroupCreate? ==> Supplied(op.vols, op.genv)
  {
    match op
    case SnapCreate(name, vol, env) => CreateSnapshot(cfg, p, name, vol, env).proc
    case SnapDelete(id) => DeleteSnapshot(cfg, p, id).proc
    case GroupCreate(name, vols, env) => CreateGroup(cfg, p, name, vols, env).proc
    case GroupDelete(gid) => DeleteGroup(p, gid).proc
    case GroupGet(gid, ids) => GetGroup(p, gid, ids).proc
    case VolumeCall(saves, vs) =>
      if saves then Saved(Reloaded(p).memory.(volumes := vs)) else Reloaded(p)
  }
}

/** The snapshot and group RPC handlers, step by step over the store. */
module GroupServer {
  import opened Common
  import opened KeyedList
  import opened Store
  import opened Ordering
  import opened Driver
  import opened Groups

  class SnapshotServer {
    const cfg: Config
    const state: State

    constructor (cfg: Config, state: State)
      ensures this.cfg == cfg && this.state == state
    {
      this.cfg, this.state := cfg, state;
    }

    ghost function Here(): Proc
      reads this, state, state.cm
    {
      Proc(state.Memory(), state.cm.data)
    }

    method CreateSnapshot(name: string, vol: string, env: SnapshotEnv) returns (reply: GroupReply)
      modifies state, state.cm
      ensures Result(Here(), reply) == Groups.CreateSnapshot(cfg, old(Here()), name, vol, env)
    {
      if cfg.ephemeral || name == "" || vol == "" {
        return Error(InvalidArgument);
      }
      var ex := state.GetSnapshotByName(name);
      if ex.Some? {
        return if ex.value.volID == vol then OneSnapshot(ex.value) else Error(AlreadyExists);
      }
      var v := state.GetVolumeByID(vol);
      if v.None? {
        return Error(NotFound);
      }
      if env.badOptions && v.value.accessType.MountAccess? {
        return Error(InvalidArgument);
      }
      if !env.ok {
        return Error(Internal);
      }
      var snap := Snapshot(name, env.uuid, vol, SnapshotPath(cfg, env.uuid), env.time, v.value.volSize, true, "");
      state.UpdateSnapshot(snap);
      return OneSnapshot(snap);
    }

    method DeleteSnapshot(id: string) returns (reply: GroupReply)
      modifies state, state.cm
      ensures Result(Here(), reply) == Groups.DeleteSnapshot(cfg, old(Here()), id)
    {
      if cfg.ephemeral || id == "" {
        return Error(InvalidArgument);
      }
      var snap := state.GetSnapshotByID(id);
      var group := if snap.Some? then snap.value.groupSnapshotID else "";
      if snap.None? && group != "" {
        return Error(InvalidArgument);
      }
      state.DeleteSnapshot(id);
      return Ok;
    }

    /** A snapshot or group call, carried out by its handler. */
    method Handle(op: Op) returns (reply: GroupReply)
      requires !op.VolumeCall? && (op.GroupCreate? ==> Supplied(op.vols, op.genv))
      modifies state, state.cm
      ensures Here() == Perform(cfg, old(Here()), op)
    {
      match op {
        case SnapCreate(name, vol, env) => reply := CreateSnapshot(name, vol, env);
        case SnapDelete(id) => reply := DeleteSnapshot(id);
        case GroupCreate(name, vols, env) => reply := CreateVolumeGroupSnapshot(name, vols, env);
        case GroupDelete(gid) => reply := DeleteVolumeGroupSnapshot(gid);
        case GroupGet(gid, ids) => reply := GetVolumeGroupSnapshot(gid, ids);
      }
    }

    method ResolveAll(id: string, ids: seq<string>) returns (reply: GroupReply)
      ensures reply == match Resolve(state.snapshots, ids)
                       case None => Error(NotFound)
                       case Some(members) => Group(id, members)
    {
      var members: seq<Snapshot> := [];
      for i := 0 to |ids|
        invariant Resolve(state.snapshots, ids[..i]) == Some(members)
      {
        assert ids[..i + 1][..i] == ids[..i];
        var s := state.GetSnapshotByID(ids[i]);
        if s.None? {
          ResolvePrefix(state.snapshots, ids, i + 1);
          return Error(NotFound);
        }
        members := members + [s.value];
      }
      assert ids[..|ids|] == ids;
      return Group(id, members);
    }

    /** MatchesSourceVolumeIDs and MatchesSnapshotIDs: equalIDs on copies of the two lists. */
    method Matches(xs: seq<string>, ys: seq<string>) returns (equal: bool, left: seq<string>)
      ensures equal <==> multiset(xs) == multiset(ys)
      ensures left == Compared(xs, ys)
    {
      var a := new string[|xs|](i requires 0 <= i < |xs| => xs[i]);
      var b := new string[|ys|](i requires 0 <= i < |ys| => ys[i]);
      assert a[..] == xs && b[..] == ys;
      equal := EqualIDs(a, b);
      left := a[..];
    }

    /** One turn of the loop over the source volumes. */
    method TakeSnapshot(name: string, vols: seq<string>, env: GroupEnv, i: nat, made: seq<Snapshot>)
      returns (all: seq<Snapshot>, failed: Option<Code>)
      requires Supplied(vols, env) && i < |vols|
      modifies state, state.cm
      ensures Partial(Here(), all, failed)
              == SnapshotMember(cfg, Partial(old(Here()), made, None), name, vols, env, i)
    {
      var v := state.GetVolumeByID(vols[i]);
      if v.None? {
        return made, Some(NotFound);
      }
      if env.badOptions && v.value.accessType.MountAccess? {
        return made, Some(InvalidArgument);
      }
      if !env.ok[i] {
        return made, Some(Internal);
      }
      var snap := MemberSnapshot(cfg, name, v.value, vols[i], env.ids[i], env);
      state.UpdateSnapshot(snap);
      return made + [snap], None;
    }

    /** CreateVolumeGroupSnapshot for a name that a group has. */
    method ReuseGroup(name: string, vols: seq<string>) returns (reply: GroupReply)
      requires name != "" && vols != [] && Index(GroupName, state.groups, name) < |state.groups|
      modifies state
      ensures forall env | Supplied(vols, env) ::
                Result(Here(), reply) == CreateGroup(cfg, old(Here()), name, vols, env)
    {
      var i := Index(GroupName, state.groups, name);
      var ex := state.groups[i];
      var equal, sources := Matches(ex.sourceVolumeIDs, vols);
      state.groups := state.groups[i := ex.(sourceVolumeIDs := sources)];
      if !equal {
        return Error(AlreadyExists);
      }
      reply := ResolveAll(ex.id, ex.snapshotIDs);
    }

    /** The loop over the source volumes, up to the first failure. */
    method TakeSnapshots(name: string, vols: seq<string>, env: GroupEnv)
      returns (made: seq<Snapshot>, failed: Option<Code>)
      requires Supplied(vols, env)
      modifies state, state.cm
      ensures Partial(Here(), made, failed) == SnapshotMembers(cfg, old(Here()), name, vols, env, |vols|)
    {
      ghost var p := Here();
      made, failed := [], None;
      for i := 0 to |vols|
        invariant SnapshotMembers(cfg, p, name, vols, env, i) == Partial(Here(), made, None) && failed.None?
      {
        made, failed := TakeSnapshot(name, vols, env, i, made);
        assert SnapshotMembers(cfg, p, name, vols, env, i + 1) == Partial(Here(), made, failed);
        if failed.Some? {
          FailureStays(cfg, p, name, vols, env, i + 1);
          return;
        }
      }
    }

    method CreateVolumeGroupSnapshot(name: string, vols: seq<string>, env: GroupEnv) returns (reply: GroupReply)
      requires Supplied(vols, env)
      modifies state, state.cm
      ensures Result(Here(), reply) == CreateGroup(cfg, old(Here()), name, vols, env)
    {
      if name == "" || vols == [] {
        return Error(InvalidArgument);
      }
      var ex := state.GetGroupSnapshotByName(name);
      if ex.Some? {
        reply := ReuseGroup(name, vols);
        return;
      }
      var made, failed := TakeSnapshots(name, vols, env);
      if failed.Some? {
        return Error(failed.value);
      }
      var g := GroupSnapshot(name, env.gid, env.ids, vols, env.time, true);
      state.UpdateGroupSnapshot(g);
      return Group(env.gid, made);
    }

    method DeleteVolumeGroupSnapshot(gid: string) returns (reply: GroupReply)
      modifies state, state.cm
      ensures Result(Here(), reply) == DeleteGroup(old(Here()), gid)
    {
      if gid == "" {
        return Error(InvalidArgument);
      }
      var ex := state.GetGroupSnapshotByID(gid);
      if ex.None? {
        return Ok;
      }
      ghost var p := Here();
      var ids := ex.value.snapshotIDs;
      for i := 0 to |ids|
        invariant Here() == DropAll(p, ids[..i])
        invariant state.groups == p.memory.groups
      {
        assert ids[..i + 1][..i] == ids[..i];
        state.DeleteSnapshot(ids[i]);
      }
      assert ids[..|ids|] == ids;
      state.DeleteGroupSnapshot(gid);
      return Ok;
    }

    method GetVolumeGroupSnapshot(gid: string, ids: seq<string>) returns (reply: GroupReply)
      modifies state
      ensures Result(Here(), reply) == GetGroup(old(Here()), gid, ids)
    {
      if gid == "" {
        return Error(InvalidArgument);
      }
      var ex := state.GetGroupSnapshotByID(gid);
      if ex.None? {
        return Error(NotFound);
      }
      var equal, sorted := Matches(ex.value.snapshotIDs, ids);
      var i := Index(GroupID, state.groups, gid);
      state.groups := state.groups[i := ex.value.(snapshotIDs := sorted)];
      if !equal {
        return Error(InvalidArgument);
      }
      reply := ResolveAll(gid, sorted);
    }
  }

  lemma {:induction false} ResolvePrefix(snaps: seq<Snapshot>, ids: seq<string>, k: nat)
    requires k <= |ids| && Resolve(snaps, ids[..k]).None?
    ensures Resolve(snaps, ids).None?
    decreases |ids| - k
  {
    if k == |ids| {
      assert ids[..k] == ids;
    } else {
      assert ids[..k + 1][..k] == ids[..k];
      ResolvePrefix(snaps, ids, k + 1);
    }
  }

  lemma {:induction false} FailureStays(cfg: Config, p: Proc, name: string, vols: seq<string>, env: GroupEnv, k: nat)
    requires Supplied(vols, env) && k <= |vols|
    requires SnapshotMembers(cfg, p, name, vols, env, k).failed.Some?
    ensures SnapshotMembers(cfg, p, name, vols, env, |vols|) == SnapshotMembers(cfg, p, name, vols, env, k)
    decreases |vols| - k
  {
    if k < |vols| {
      FailureStays(cfg, p, name, vols, env, k + 1);
    }
  }
}
