/** What the snapshot and group calls do and reply, and that repeating one gives the same. */
module SnapshotEffects {
  import opened Common
  import opened KeyedList
  import opened Store
  import opened Driver
  import opened Groups
  import opened GroupInvariants

  /** The record of a new snapshot of v. */
  function NewSnapshot(cfg: Config, name: string, v: Volume, id: string, time: int, gid: string): Snapshot {
    Snapshot(name, id, v.volID, cfg.stateDir + "/" + id + ".snap", time, v.volSize, true, gid)
  }

  lemma PutNew<T(!new)>(key: T -> string, xs: seq<T>, x: T)
    requires forall y | y in xs :: key(y) != key(x)
    ensures Put(key, xs, x) == xs + [x]
  {
    IndexIs(key, xs, key(x), |xs|);
  }

  // ---- single snapshots ----

  /** The volume can be copied. */
  predicate Copies(v: Volume, env: SnapshotEnv) { env.ok && !(env.badOptions && v.accessType == MountAccess) }

  /**
   * A request for a name that the process remembers for no snapshot: it succeeds exactly if the volume is stored and
   * can be copied, and then stores one more snapshot, of that name and volume, of the size of the volume, ready to use.
   */
  lemma SnapshotEffect(cfg: Config, p: Proc, name: string, vol: string, env: SnapshotEnv)
    requires !cfg.ephemeral && name != "" && vol != "" && forall s | s in p.memory.snapshots :: s.name != name
    requires FreshSnapshot(Reload(p.memory, p.cell), env.uuid)
    ensures var r, was := CreateSnapshot(cfg, p, name, vol, env), Reload(p.memory, p.cell);
            var v := Find(VolumeID, was.volumes, vol);
            && (if v.Some? && Copies(v.value, env) then
                  var snap := NewSnapshot(cfg, name, v.value, env.uuid, env.time, "");
                  r == Result(Saved(was.(snapshots := was.snapshots + [snap])), OneSnapshot(snap))
                else r.reply.Error? && r.proc == Proc(was, p.cell))
            && (r.reply == Error(NotFound) <==> v.None?)
            && (r.reply == Error(InvalidArgument) <==> v.Some? && env.badOptions && v.value.accessType == MountAccess)
            && (r.reply.Error? ==> r.reply.code in {NotFound, InvalidArgument, Internal})
  {
    var was := Reload(p.memory, p.cell);
    FindNone(SnapshotName, p.memory.snapshots, name);
    if Find(VolumeID, was.volumes, vol).Some? {
      PutNew(SnapshotID, was.snapshots,
             NewSnapshot(cfg, name, Find(VolumeID, was.volumes, vol).value, env.uuid, env.time, ""));
    }
  }

  /** In memory and in the cell this is the first snapshot of the name. */
  predicate Named(p: Proc, name: string, snap: Snapshot) {
    && Find(SnapshotName, p.memory.snapshots, name) == Some(snap)
    && p.cell.Some? && Find(SnapshotName, p.cell.value.snapshots, name) == Some(snap)
  }

  /** A remembered name: the snapshot again for its volume, AlreadyExists for any other, and nothing changes. */
  lemma TakenName(cfg: Config, p: Proc, name: string, vol: string, env: SnapshotEnv, snap: Snapshot)
    requires !cfg.ephemeral && name != "" && vol != ""
    requires Find(SnapshotName, p.memory.snapshots, name) == Some(snap)
    ensures CreateSnapshot(cfg, p, name, vol, env).proc == p
    ensures vol == snap.volID ==> CreateSnapshot(cfg, p, name, vol, env).reply == OneSnapshot(snap)
    ensures vol != snap.volID ==> CreateSnapshot(cfg, p, name, vol, env).reply == Error(AlreadyExists)
  {
  }

  lemma FindAppended<T(!new)>(key: T -> string, xs: seq<T>, x: T, k: string)
    ensures Find(key, xs + [x], k)
            == if Find(key, xs, k).Some? then Find(key, xs, k) else if key(x) == k then Some(x) else None
  {
    IndexIs(key, xs + [x], k, if Index(key, xs, k) < |xs| then Index(key, xs, k)
                              else if key(x) == k then |xs| else |xs| + 1);
  }

  /**
   * Right after a success the same request gives the same snapshot and changes nothing, exactly if the name was
   * remembered or no snapshot of that name was stored: the name is looked up in memory, before the reload.
   */
  lemma RepeatedAtOnce(cfg: Config, p: Proc, name: string, vol: string, env: SnapshotEnv, env2: SnapshotEnv)
    requires CreateSnapshot(cfg, p, name, vol, env).reply.OneSnapshot?
    requires FreshSnapshot(Reload(p.memory, p.cell), env.uuid)
    ensures var first := CreateSnapshot(cfg, p, name, vol, env);
            CreateSnapshot(cfg, first.proc, name, vol, env2) == first
            <==> || (exists s | s in p.memory.snapshots :: s.name == name)
                 || forall s | s in Reload(p.memory, p.cell).snapshots :: s.name != name
  {
    var first, was := CreateSnapshot(cfg, p, name, vol, env), Reload(p.memory, p.cell);
    FindNone(SnapshotName, p.memory.snapshots, name);
    FindNone(SnapshotName, was.snapshots, name);
    if Find(SnapshotName, p.memory.snapshots, name).None? {
      SnapshotEffect(cfg, p, name, vol, env);
      FindAppended(SnapshotName, was.snapshots, first.reply.snap, name);
      var found := Find(SnapshotName, first.proc.memory.snapshots, name).value;
      TakenName(cfg, first.proc, name, vol, env2, found);
      if Find(SnapshotName, was.snapshots, name).Some? {
        assert found in was.snapshots && found != first.reply.snap;
      }
    }
  }

  /** So a process that does not know of a stored snapshot makes another of the name, and then returns the first. */
  lemma StaleName(cfg: Config, v: Volume, env: SnapshotEnv, env2: SnapshotEnv)
    requires !cfg.ephemeral && v.volID != "" && Copies(v, env) && env.uuid != "9"
    ensures var old9 := NewSnapshot(cfg, "s", v, "9", 0, "");
            var first := CreateSnapshot(cfg, Proc(NOTHING, Some(Resources([v], [old9], []))), "s", v.volID, env);
            && first.reply == OneSnapshot(NewSnapshot(cfg, "s", v, env.uuid, env.time, ""))
            && CreateSnapshot(cfg, first.proc, "s", v.volID, env2).reply == OneSnapshot(old9)
  {
    var old9 := NewSnapshot(cfg, "s", v, "9", 0, "");
    var p := Proc(NOTHING, Some(Resources([v], [old9], [])));
    IndexIs(VolumeID, [v], v.volID, 0);
    SnapshotEffect(cfg, p, "s", v.volID, env);
    FindAppended(SnapshotName, [], old9, "s");
    FindAppended(SnapshotName, [old9], NewSnapshot(cfg, "s", v, env.uuid, env.time, ""), "s");
    TakenName(cfg, CreateSnapshot(cfg, p, "s", v.volID, env).proc, "s", v.volID, env2, old9);
  }

  /** Requests without a name or a source, and single snapshots of an ephemeral driver, are refused. */
  lemma BadRequest(cfg: Config, p: Proc, name: string, vol: string, env: SnapshotEnv, vols: seq<string>, genv: GroupEnv)
    requires Supplied(vols, genv)
    ensures cfg.ephemeral || name == "" || vol == "" ==>
              CreateSnapshot(cfg, p, name, vol, env) == Result(p, Error(InvalidArgument))
    ensures name == "" || vols == [] ==> CreateGroup(cfg, p, name, vols, genv) == Result(p, Error(InvalidArgument))
  {
  }

  // ---- calls that keep a snapshot ----

  /** The call deletes neither the snapshot nor a group that lists it, and its new IDs are new. */
  ghost predicate Keeps(p: Proc, op: Op, snap: Snapshot) {
    match op
    case SnapCreate(_, _, env) => FreshSnapshot(Reload(p.memory, p.cell), env.uuid)
    case SnapDelete(id) => id != snap.id
    case GroupCreate(_, vols, env) =>
      && Supplied(vols, env) && NoDuplicates(env.ids)
      && forall id | id in env.ids :: FreshSnapshot(Reload(p.memory, p.cell), id)
    case GroupDelete(gid) => forall g | g in p.memory.groups && g.id == gid :: snap.id !in g.snapshotIDs
    case _ => true
  }

  lemma FindDropped(snaps: seq<Snapshot>, id: string, name: string, snap: Snapshot)
    requires Find(SnapshotName, snaps, name) == Some(snap) && snap.id != id
    ensures Find(SnapshotName, Drop(SnapshotID, snaps, id), name) == Some(snap)
  {
    var n, d := Index(SnapshotName, snaps, name), Index(SnapshotID, snaps, id);
    IndexIs(SnapshotName, Drop(SnapshotID, snaps, id), name, if d < n then n - 1 else n);
  }

  lemma {:induction false} DropAllKeepsName(p: Proc, ids: seq<string>, name: string, snap: Snapshot)
    requires Find(SnapshotName, p.memory.snapshots, name) == Some(snap) && snap.id !in ids
    ensures Find(SnapshotName, DropAll(p, ids).memory.snapshots, name) == Some(snap)
  {
    if ids != [] {
      var n := |ids| - 1;
      DropAllKeepsName(p, ids[..n], name, snap);
      FindDropped(DropAll(p, ids[..n]).memory.snapshots, ids[n], name, snap);
    }
  }

  // ---- taking the snapshots of a group ----

  /** The source volume is stored and can be copied. */
  predicate CanTake(r: Resources, vols: seq<string>, env: GroupEnv, i: nat)
    requires Supplied(vols, env) && i < |vols|
  {
    var v := Find(VolumeID, r.volumes, vols[i]);
    v.Some? && env.ok[i] && !(env.badOptions && v.value.accessType == MountAccess)
  }

  /** Why the source volume cannot be copied. */
  function WhyNot(r: Resources, vols: seq<string>, env: GroupEnv, i: nat): Code
    requires Supplied(vols, env) && i < |vols| && !CanTake(r, vols, env, i)
  {
    match Find(VolumeID, r.volumes, vols[i])
    case None => NotFound
    case Some(v) => if env.badOptions && v.accessType == MountAccess then InvalidArgument else Internal
  }

  /** The snapshot of the i-th source volume, named after the group and the volume. */
  function Taken(cfg: Config, r: Resources, name: string, vols: seq<string>, env: GroupEnv, i: nat): Snapshot
    requires Supplied(vols, env) && i < |vols| && CanTake(r, vols, env, i)
  {
    NewSnapshot(cfg, name + "-" + vols[i], Find(VolumeID, r.volumes, vols[i]).value, env.ids[i], env.time, env.gid)
  }

  /** Snapshots of the first volumes, one each, and the first volume that cannot be copied is not among them. */
  ghost predicate TakenInOrder(cfg: Config, r: Resources, made: seq<Snapshot>, name: string, vols: seq<string>,
                               env: GroupEnv, k: nat)
    requires Supplied(vols, env) && k <= |vols|
  {
    && |made| <= k
    && (forall i | 0 <= i < |made| :: CanTake(r, vols, env, i) && made[i] == Taken(cfg, r, name, vols, env, i))
    && (|made| < k ==> !CanTake(r, vols, env, |made|))
  }

  ghost predicate NewIDs(r: Resources, vols: seq<string>, env: GroupEnv) {
    Supplied(vols, env) && NoDuplicates(env.ids) && forall id | id in env.ids :: FreshSnapshot(r, id)
  }

  /** After the first k source volumes: what was stored, with the snapshots made so far appended. */
  ghost predicate Appended(p: Proc, q: Partial) {
    var r := Reload(p.memory, p.cell);
    && q.proc.memory == r.(snapshots := r.snapshots + q.made)
    && q.proc.cell == if q.made == [] then p.cell else Some(q.proc.memory)
  }

  lemma NextIsUnused(cfg: Config, r: Resources, made: seq<Snapshot>, name: string, vols: seq<string>, env: GroupEnv)
    requires NewIDs(r, vols, env) && |made| < |vols| && TakenInOrder(cfg, r, made, name, vols, env, |made|)
    ensures forall y | y in r.snapshots + made :: y.id != env.ids[|made|]
  {
    forall y | y in r.snapshots + made ensures y.id != env.ids[|made|] {
      if y in made {
        var j :| 0 <= j < |made| && made[j] == y;
        assert env.ids[j] != env.ids[|made|];
      } else {
        assert env.ids[|made|] in env.ids;
      }
    }
  }

  lemma OneMember(cfg: Config, r: Resources, q: Partial, name: string, vols: seq<string>, env: GroupEnv, i: nat)
    requires Supplied(vols, env) && i < |vols| && q.failed.None? && Reloaded(q.proc) == q.proc
    requires q.proc.memory.volumes == r.volumes
    requires forall y | y in q.proc.memory.snapshots :: y.id != env.ids[i]
    ensures var m := q.proc.memory;
            SnapshotMember(cfg, q, name, vols, env, i)
            == if CanTake(r, vols, env, i) then
                 var snap := Taken(cfg, r, name, vols, env, i);
                 Partial(Saved(m.(snapshots := m.snapshots + [snap])), q.made + [snap], None)
               else Partial(q.proc, q.made, Some(WhyNot(r, vols, env, i)))
  {
    if CanTake(r, vols, env, i) {
      PutNew(SnapshotID, q.proc.memory.snapshots, Taken(cfg, r, name, vols, env, i));
    }
  }

  lemma OneMoreTaken(cfg: Config, p: Proc, q: Partial, name: string, vols: seq<string>, env: GroupEnv, i: nat)
    requires NewIDs(Reload(p.memory, p.cell), vols, env) && i < |vols| && q.failed.None?
    requires Appended(p, q) && |q.made| == i
    requires TakenInOrder(cfg, Reload(p.memory, p.cell), q.made, name, vols, env, i)
    ensures var n := SnapshotMember(cfg, q, name, vols, env, i);
            && Appended(p, n) && TakenInOrder(cfg, Reload(p.memory, p.cell), n.made, name, vols, env, i + 1)
            && i <= |n.made|
            && n.failed == if |n.made| == i + 1 then None else Some(WhyNot(Reload(p.memory, p.cell), vols, env, i))
  {
    var r := Reload(p.memory, p.cell);
    NextIsUnused(cfg, r, q.made, name, vols, env);
    AppendedIsReloaded(p, q);
    OneMember(cfg, r, q, name, vols, env, i);
    if CanTake(r, vols, env, i) {
      var snap := Taken(cfg, r, name, vols, env, i);
      assert r.snapshots + q.made + [snap] == r.snapshots + (q.made + [snap]);
    }
  }

  lemma AppendedIsReloaded(p: Proc, q: Partial)
    requires Appended(p, q)
    ensures Reloaded(q.proc) == q.proc
  {
    var r := Reload(p.memory, p.cell);
    assert r.snapshots + [] == r.snapshots;
  }

  lemma {:induction false} MembersTaken(cfg: Config, p: Proc, name: string, vols: seq<string>, env: GroupEnv, k: nat)
    requires NewIDs(Reload(p.memory, p.cell), vols, env) && 0 < k <= |vols|
    ensures var q := SnapshotMembers(cfg, p, name, vols, env, k);
            && Appended(p, q) && TakenInOrder(cfg, Reload(p.memory, p.cell), q.made, name, vols, env, k)
            && q.failed == if |q.made| == k then None else Some(WhyNot(Reload(p.memory, p.cell), vols, env, |q.made|))
  {
    var r := Reload(p.memory, p.cell);
    if k == 1 {
      FirstMember(cfg, p, name, vols, env);
      assert r.snapshots + [] == r.snapshots;
      OneMoreTaken(cfg, p, Partial(Reloaded(p), [], None), name, vols, env, 0);
    } else {
      MembersTaken(cfg, p, name, vols, env, k - 1);
      var q := SnapshotMembers(cfg, p, name, vols, env, k - 1);
      if q.failed.None? {
        OneMoreTaken(cfg, p, q, name, vols, env, k - 1);
      }
    }
  }

  /** All source volumes can be copied. */
  predicate CanTakeAll(r: Resources, vols: seq<string>, env: GroupEnv)
    requires Supplied(vols, env)
  {
    forall i | 0 <= i < |vols| :: CanTake(r, vols, env, i)
  }

  /**
   * A group of a name that the process remembers for no group: it succeeds exactly if all its source volumes are
   * stored and can be copied. Then one snapshot of each, in their order, is stored and returned, and the group with
   * them; otherwise those of the volumes before the first that fails are stored, and no group.
   */
  lemma GroupEffect(cfg: Config, p: Proc, name: string, vols: seq<string>, env: GroupEnv)
    requires name != "" && vols != [] && forall g | g in p.memory.groups :: g.name != name
    requires var r := Reload(p.memory, p.cell);
             NewIDs(r, vols, env) && forall g | g in r.groups :: g.id != env.gid
    ensures var was, r := Reload(p.memory, p.cell), CreateGroup(cfg, p, name, vols, env);
            exists made ::
              && TakenInOrder(cfg, was, made, name, vols, env, |vols|)
              && (r.reply.Group? <==> CanTakeAll(was, vols, env))
              && r.proc.memory.volumes == was.volumes && r.proc.memory.snapshots == was.snapshots + made
              && (made != [] ==> r.proc.cell == Some(r.proc.memory))
              && if r.reply.Group? then
                   && r.reply == GroupReply.Group(env.gid, made)
                   && r.proc.memory.groups == was.groups + [GroupSnapshot(name, env.gid, env.ids, vols, env.time, true)]
                 else
                   && |made| < |vols| && r.reply == Error(WhyNot(was, vols, env, |made|))
                   && r.proc.memory.groups == was.groups
  {
    var was := Reload(p.memory, p.cell);
    MembersTaken(cfg, p, name, vols, env, |vols|);
    FindNone(GroupName, p.memory.groups, name);
    var q := SnapshotMembers(cfg, p, name, vols, env, |vols|);
    PutNew(GroupID, was.groups, GroupSnapshot(name, env.gid, env.ids, vols, env.time, true));
    assert TakenInOrder(cfg, was, q.made, name, vols, env, |vols|);
  }

  // ---- a run that keeps a snapshot ----

  lemma {:induction false} FindExtended(xs: seq<Snapshot>, ys: seq<Snapshot>, name: string, snap: Snapshot)
    requires Find(SnapshotName, xs, name) == Some(snap)
    ensures Find(SnapshotName, xs + ys, name) == Some(snap)
  {
    IndexIs(SnapshotName, xs + ys, name, Index(SnapshotName, xs, name));
  }

  lemma GroupCreateKeepsName(cfg: Config, p: Proc, op: Op, name: string, snap: Snapshot)
    requires op.GroupCreate? && Named(p, name, snap) && Keeps(p, op, snap)
    ensures Named(Perform(cfg, p, op), name, snap)
  {
    if op.name != "" && op.vols != [] && Index(GroupName, p.memory.groups, op.name) == |p.memory.groups| {
      MembersTaken(cfg, p, op.name, op.vols, op.genv, |op.vols|);
      var q := SnapshotMembers(cfg, p, op.name, op.vols, op.genv, |op.vols|);
      FindExtended(p.cell.value.snapshots, q.made, name, snap);
    }
  }

  lemma GroupDeleteKeepsName(cfg: Config, p: Proc, op: Op, name: string, snap: Snapshot)
    requires op.GroupDelete? && Named(p, name, snap) && Keeps(p, op, snap)
    ensures Named(Perform(cfg, p, op), name, snap)
  {
    var g := Find(GroupID, p.memory.groups, op.gid);
    if g.Some? {
      DropAllKeepsName(p, g.value.snapshotIDs, name, snap);
    }
  }

  lemma OpKeepsName(cfg: Config, p: Proc, op: Op, name: string, snap: Snapshot)
    requires Named(p, name, snap) && Keeps(p, op, snap)
    ensures Named(Perform(cfg, p, op), name, snap)
  {
    match op
    case SnapCreate(other, vol, env) =>
      var r := CreateSnapshot(cfg, p, other, vol, env);
      if r.reply.OneSnapshot? && Find(SnapshotName, p.memory.snapshots, other).None? {
        PutNew(SnapshotID, p.cell.value.snapshots, r.reply.snap);
        FindExtended(p.cell.value.snapshots, [r.reply.snap], name, snap);
      }
    case SnapDelete(id) => FindDropped(p.memory.snapshots, id, name, snap);
    case GroupCreate(_, _, _) => GroupCreateKeepsName(cfg, p, op, name, snap);
    case GroupDelete(_) => GroupDeleteKeepsName(cfg, p, op, name, snap);
    case _ =>
  }

  ghost predicate KeepsRun(cfg: Config, p: Proc, ops: seq<Op>, snap: Snapshot)
    decreases |ops|
  {
    ops == [] || (Keeps(p, ops[0], snap) && KeepsRun(cfg, Perform(cfg, p, ops[0]), ops[1..], snap))
  }

  ghost function After(cfg: Config, p: Proc, ops: seq<Op>, snap: Snapshot): Proc
    requires KeepsRun(cfg, p, ops, snap)
    decreases |ops|
  {
    if ops == [] then p else After(cfg, Perform(cfg, p, ops[0]), ops[1..], snap)
  }

  lemma {:induction false} RunKeepsName(cfg: Config, p: Proc, ops: seq<Op>, name: string, snap: Snapshot)
    requires Named(p, name, snap) && KeepsRun(cfg, p, ops, snap)
    ensures Named(After(cfg, p, ops, snap), name, snap)
    decreases |ops|
  {
    if ops != [] {
      OpKeepsName(cfg, p, ops[0], name, snap);
      RunKeepsName(cfg, Perform(cfg, p, ops[0]), ops[1..], name, snap);
    }
  }

  /** The process remembers the same first snapshot of the name that is stored, or none. */
  predicate KnowsName(p: Proc, name: string) {
    && Find(SnapshotName, p.memory.snapshots, name) == Find(SnapshotName, Reload(p.memory, p.cell).snapshots, name)
  }

  lemma SuccessNames(cfg: Config, p: Proc, name: string, vol: string, env: SnapshotEnv)
    requires KnowsName(p, name) && FreshSnapshot(Reload(p.memory, p.cell), env.uuid)
    requires CreateSnapshot(cfg, p, name, vol, env).reply.OneSnapshot?
    ensures var first := CreateSnapshot(cfg, p, name, vol, env);
            Named(first.proc, name, first.reply.snap) && first.reply.snap.volID == vol
  {
    var first, was := CreateSnapshot(cfg, p, name, vol, env), Reload(p.memory, p.cell);
    if Find(SnapshotName, p.memory.snapshots, name).None? {
      FindNone(SnapshotName, p.memory.snapshots, name);
      SnapshotEffect(cfg, p, name, vol, env);
      FindAppended(SnapshotName, was.snapshots, first.reply.snap, name);
    }
  }

  /**
   * After a success and any calls that keep the snapshot, the same request gives the same snapshot, the same name for
   * another volume is refused, and neither changes anything.
   */
  lemma RepeatedSnapshot(cfg: Config, p: Proc, name: string, vol: string, env: SnapshotEnv, ops: seq<Op>,
                         again: string, env2: SnapshotEnv)
    requires KnowsName(p, name) && FreshSnapshot(Reload(p.memory, p.cell), env.uuid) && again != ""
    requires CreateSnapshot(cfg, p, name, vol, env).reply.OneSnapshot?
    requires var first := CreateSnapshot(cfg, p, name, vol, env);
             KeepsRun(cfg, first.proc, ops, first.reply.snap)
    ensures var first := CreateSnapshot(cfg, p, name, vol, env);
            var now := After(cfg, first.proc, ops, first.reply.snap);
            CreateSnapshot(cfg, now, name, again, env2)
            == Result(now, if again == vol then first.reply else Error(AlreadyExists))
  {
    var first := CreateSnapshot(cfg, p, name, vol, env);
    SuccessNames(cfg, p, name, vol, env);
    RunKeepsName(cfg, first.proc, ops, name, first.reply.snap);
    TakenName(cfg, After(cfg, first.proc, ops, first.reply.snap), name, again, env2, first.reply.snap);
  }

  /** A call leaves in memory the snapshots that were there, or those that are then stored. */
  lemma OpRemembers(cfg: Config, p: Proc, op: Op)
    requires !op.VolumeCall? && (op.GroupCreate? ==> Supplied(op.vols, op.genv)) && p.cell.Some?
    ensures var q := Perform(cfg, p, op);
            q.cell.Some? && q.memory.snapshots in {p.memory.snapshots, q.cell.value.snapshots}
  {
    match op
    case GroupCreate(name, vols, env) =>
      if vols != [] {
        MembersKeepVolumes(cfg, p, name, vols, env, |vols|);
      }
    case _ =>
  }

  // ---- replies about groups ----

  /** A known group with a matching list of IDs, in any order: exactly its members. */
  lemma GetGroupReply(p: Proc, g: GroupSnapshot, ids: seq<string>)
    requires ProcOk(p) && g in p.memory.groups
    ensures var r := GetGroup(p, g.id, ids);
            && r.proc == p.(memory := p.memory.(groups := r.proc.memory.groups))
            && if multiset(ids) == multiset(g.snapshotIDs) then
              && r.reply.Group? && r.reply.id == g.id
              && (forall s :: s in r.reply.members <==> s in p.memory.snapshots && s.groupSnapshotID == g.id)
              && |r.reply.members| == |g.snapshotIDs|
            else r.reply == Error(InvalidArgument)
  {
    var i := Index(GroupID, p.memory.groups, g.id);
    FindIsMember(GroupID, p.memory.groups, g);
    var h := g.(snapshotIDs := Compared(g.snapshotIDs, ids));
    ComparedFacts(g.snapshotIDs, ids);
    SortedGroupOk(p.memory, i, h);
    if multiset(ids) == multiset(g.snapshotIDs) {
      assert p.memory.groups[i := h][i] == h;
      ExactMembers(p.memory.snapshots, h);
    }
  }

  lemma ExactMembers(snaps: seq<Snapshot>, g: GroupSnapshot)
    requires Distinct(SnapshotID, snaps) && GroupOk(snaps, g)
    ensures Resolve(snaps, g.snapshotIDs).Some?
    ensures var found := Resolve(snaps, g.snapshotIDs).value;
            |found| == |g.snapshotIDs| && forall s :: s in found <==> s in snaps && s.groupSnapshotID == g.id
  {
    MembersFound(snaps, g);
    var found := Resolve(snaps, g.snapshotIDs).value;
    forall s ensures s in found <==> s in snaps && s.groupSnapshotID == g.id {
      if s in snaps && s.groupSnapshotID == g.id {
        FindIsMember(SnapshotID, snaps, s);
        assert IsMember(snaps, g.id, s.id);
        var i :| 0 <= i < |g.snapshotIDs| && g.snapshotIDs[i] == s.id;
        FindIsMember(SnapshotID, snaps, found[i]);
      }
    }
  }

  lemma UnknownGroup(p: Proc, gid: string, ids: seq<string>)
    requires forall g | g in p.memory.groups :: g.id != gid
    ensures GetGroup(p, gid, ids) == Result(p, Error(if gid == "" then InvalidArgument else NotFound))
    ensures DeleteGroup(p, gid) == Result(p, if gid == "" then Error(InvalidArgument) else Ok)
  {
    FindNone(GroupID, p.memory.groups, gid);
  }

  lemma DeleteGroupReply(p: Proc, g: GroupSnapshot)
    requires ProcOk(p) && g in p.memory.groups
    ensures DeleteGroup(p, g.id).reply == Ok
  {
    FindIsMember(GroupID, p.memory.groups, g);
  }

  /** Asking for a remembered group name with other source volumes. */
  lemma OtherSources(cfg: Config, p: Proc, g: GroupSnapshot, vols: seq<string>, env: GroupEnv)
    requires Supplied(vols, env) && vols != [] && g.name != "" && Find(GroupName, p.memory.groups, g.name) == Some(g)
    ensures var r := CreateGroup(cfg, p, g.name, vols, env);
            && r.proc == p.(memory := p.memory.(groups := r.proc.memory.groups))
            && (multiset(vols) != multiset(g.sourceVolumeIDs) ==> r.reply == Error(AlreadyExists))
  {
  }

  /** Deleting is done whether the snapshot is known or not; a known one is gone from memory and cell. */
  lemma DeleteReply(cfg: Config, p: Proc, id: string)
    requires Distinct(SnapshotID, p.memory.snapshots)
    ensures var r := DeleteSnapshot(cfg, p, id);
            if cfg.ephemeral || id == "" then r == Result(p, Error(InvalidArgument))
            else
              && r.reply == Ok && r.proc.memory == p.memory.(snapshots := r.proc.memory.snapshots)
              && (forall s :: s in r.proc.memory.snapshots <==> s in p.memory.snapshots && s.id != id)
              && r.proc.cell == if exists s | s in p.memory.snapshots :: s.id == id then Some(r.proc.memory) else p.cell
  {
    FindNone(SnapshotID, p.memory.snapshots, id);
    DropMembers(SnapshotID, p.memory.snapshots, id);
  }
}
