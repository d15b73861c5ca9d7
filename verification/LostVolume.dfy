/** A run of two processes in which a process that remembers old volumes loses a new one. */
module LostVolume {
  import opened Common
  import opened KeyedList
  import opened Store
  import opened Driver
  import opened Lifecycle
  import opened Groups
  import opened Processes
  import opened Fleet

  function Bare(cfg: Config, name: string, id: string, node: string): Volume {
    Volume(name, id, 0, VolumePath(cfg, id), MountAccess, "", "", false, "", "", false, false, node, [], [])
  }

  function Ask(name: string): CreateRequest { CreateRequest(name, true, false, true, 0, "", NoSource) }

  /** Process i creates a volume of a free name. */
  lemma Creates(c: Cluster, i: nat, name: string, env: Env, c': Cluster)
    requires i < |c.procs| && Ready(c) && name != "" && env.createOk
    requires var cfg := c.procs[i].cfg; !cfg.ephemeral && cfg.capacity == map[] && 0 <= cfg.maxVolumeSize
    requires forall v | v in VolumesIn(c) :: v.volName != name && v.volID != env.uuid
    requires var r := Contents(c.cell);
             var after := r.(volumes := r.volumes + [Bare(c.procs[i].cfg, name, env.uuid, env.node)]);
             c' == Cluster(c.procs[i := c.procs[i].(memory := after)], Some(after))
    ensures Moved(c, Move(i, VolumeRpc(CreateVolume(Ask(name), env), VolumeReply(env.uuid, 0))), c')
  {
    var cfg, s := c.procs[i].cfg, ViewOf(c, i);
    ReadyView(c, i);
    CreateAppends(cfg, s, Ask(name), env);
    FindNone(VolumeName, s.res.volumes, name);
    var v := Bare(cfg, name, env.uuid, env.node);
    assert Decide(cfg, s, CreateVolume(Ask(name), env)) == Outcome([Create(v)], VolumeReply(env.uuid, 0));
    assert Create(v) in [Create(v)] && After(Create(v)).Some?;
  }

  /** Process i takes a first snapshot of the one stored volume. */
  lemma Snaps(c: Cluster, i: nat, v: Volume, senv: SnapshotEnv, c': Cluster)
    requires i < |c.procs| && !c.procs[i].cfg.ephemeral && senv.ok && !senv.badOptions && v.volID != ""
    requires c.cell == Some(Resources([v], [], [])) && c.procs[i].memory == Resources([v], [], [])
    requires var path := SnapshotPath(c.procs[i].cfg, senv.uuid);
             var snap := Snapshot("s", senv.uuid, v.volID, path, senv.time, v.volSize, true, "");
             var after := Resources([v], [snap], []);
             c' == Cluster(c.procs[i := c.procs[i].(memory := after)], Some(after))
    ensures Moved(c, Move(i, SnapshotOp(SnapCreate("s", v.volID, senv))), c')
  {
    IndexIs(VolumeID, [v], v.volID, 0);
    var path := SnapshotPath(c.procs[i].cfg, senv.uuid);
    var snap := Snapshot("s", senv.uuid, v.volID, path, senv.time, v.volSize, true, "");
    assert Put(SnapshotID, [], snap) == [snap];
    var own: Config := c.procs[i].cfg;
    assert CreateSnapshot(own, ProcOf(c, i), "s", v.volID, senv).proc == Saved(Resources([v], [snap], []));
  }

  /** Process i, which remembers one snapshot, deletes it and writes back the volumes that it remembers. */
  lemma Unsnaps(c: Cluster, i: nat, snap: Snapshot, c': Cluster)
    requires i < |c.procs| && !c.procs[i].cfg.ephemeral && snap.id != "" && c.procs[i].memory.snapshots == [snap]
    requires var after := c.procs[i].memory.(snapshots := []);
             c' == Cluster(c.procs[i := c.procs[i].(memory := after)], Some(after))
    ensures Moved(c, Move(i, SnapshotOp(SnapDelete(snap.id))), c')
  {
    IndexIs(SnapshotID, [snap], snap.id, 0);
    assert Drop(SnapshotID, [snap], snap.id) == [];
  }

  /** What is stored after each call of the trace below. */
  function LossStored(cfg: Config, node: string, senv: SnapshotEnv): seq<Resources> {
    var v, w := Bare(cfg, "a", "1", node), Bare(cfg, "b", "2", node);
    var snap := Snapshot("s", senv.uuid, "1", SnapshotPath(cfg, senv.uuid), senv.time, 0, true, "");
    [Resources([v], [], []), Resources([v], [snap], []), Resources([v, w], [snap], []), Resources([v], [], [])]
  }

  function Pair(cfg: Config, first: Resources, second: Resources, cell: Option<Resources>): Cluster {
    Cluster([Process(cfg, first, map[]), Process(cfg, second, map[])], cell)
  }

  function LossStates(cfg: Config, node: string, senv: SnapshotEnv): seq<Cluster> {
    var r := LossStored(cfg, node, senv);
    [ Pair(cfg, NOTHING, NOTHING, None),
      Pair(cfg, r[0], NOTHING, Some(r[0])),
      Pair(cfg, r[1], NOTHING, Some(r[1])),
      Pair(cfg, r[1], r[2], Some(r[2])),
      Pair(cfg, r[3], r[2], Some(r[3])) ]
  }

  function LossMoves(env: Env, senv: SnapshotEnv): seq<Move> {
    [ Move(0, VolumeRpc(CreateVolume(Ask("a"), env.(uuid := "1")), VolumeReply("1", 0))),
      Move(0, SnapshotOp(SnapCreate("s", "1", senv))),
      Move(1, VolumeRpc(CreateVolume(Ask("b"), env.(uuid := "2")), VolumeReply("2", 0))),
      Move(0, SnapshotOp(SnapDelete(senv.uuid))) ]
  }

  lemma PairChanges(cfg: Config, a: Resources, b: Resources, r: Resources,
                    cell: Option<Resources>, cell1: Option<Resources>)
    ensures var c := Pair(cfg, a, b, cell);
            && Pair(cfg, r, b, cell1) == Cluster(c.procs[0 := c.procs[0].(memory := r)], cell1)
            && Pair(cfg, a, r, cell1) == Cluster(c.procs[1 := c.procs[1].(memory := r)], cell1)
  {
  }

  lemma FirstCreates(cfg: Config, env: Env, senv: SnapshotEnv)
    requires !cfg.ephemeral && cfg.capacity == map[] && 0 <= cfg.maxVolumeSize && env.createOk
    ensures Moved(LossStates(cfg, env.node, senv)[0], LossMoves(env, senv)[0], LossStates(cfg, env.node, senv)[1])
  {
    var r := LossStored(cfg, env.node, senv);
    PairChanges(cfg, NOTHING, NOTHING, r[0], None, Some(r[0]));
    assert [] + r[0].volumes == r[0].volumes;
    Creates(LossStates(cfg, env.node, senv)[0], 0, "a", env.(uuid := "1"), LossStates(cfg, env.node, senv)[1]);
  }

  lemma FirstSnaps(cfg: Config, env: Env, senv: SnapshotEnv)
    requires !cfg.ephemeral && senv.ok && !senv.badOptions
    ensures Moved(LossStates(cfg, env.node, senv)[1], LossMoves(env, senv)[1], LossStates(cfg, env.node, senv)[2])
  {
    var r := LossStored(cfg, env.node, senv);
    PairChanges(cfg, r[0], NOTHING, r[1], Some(r[0]), Some(r[1]));
    Snaps(LossStates(cfg, env.node, senv)[1], 0, r[0].volumes[0], senv, LossStates(cfg, env.node, senv)[2]);
  }

  lemma SecondCreates(cfg: Config, env: Env, senv: SnapshotEnv)
    requires !cfg.ephemeral && cfg.capacity == map[] && 0 <= cfg.maxVolumeSize && env.createOk
    ensures Moved(LossStates(cfg, env.node, senv)[2], LossMoves(env, senv)[2], LossStates(cfg, env.node, senv)[3])
  {
    var r := LossStored(cfg, env.node, senv);
    PairChanges(cfg, r[1], NOTHING, r[2], Some(r[1]), Some(r[2]));
    assert r[1].volumes + [r[2].volumes[1]] == r[2].volumes;
    Creates(LossStates(cfg, env.node, senv)[2], 1, "b", env.(uuid := "2"), LossStates(cfg, env.node, senv)[3]);
  }

  lemma FirstUnsnaps(cfg: Config, env: Env, senv: SnapshotEnv)
    requires !cfg.ephemeral && senv.uuid != ""
    ensures Moved(LossStates(cfg, env.node, senv)[3], LossMoves(env, senv)[3], LossStates(cfg, env.node, senv)[4])
  {
    var r := LossStored(cfg, env.node, senv);
    PairChanges(cfg, r[1], r[2], r[3], Some(r[2]), Some(r[3]));
    Unsnaps(LossStates(cfg, env.node, senv)[3], 0, r[1].snapshots[0], LossStates(cfg, env.node, senv)[4]);
  }

  lemma FourMoves(states: seq<Cluster>, moves: seq<Move>)
    requires |states| == 5 && |moves| == 4
    requires Moved(states[0], moves[0], states[1]) && Moved(states[1], moves[1], states[2])
    requires Moved(states[2], moves[2], states[3]) && Moved(states[3], moves[3], states[4])
    ensures Moves(states, moves)
  {
    forall k | 0 <= k < 4 ensures MovedAt(states, moves, k) {
      assert k == 0 || k == 1 || k == 2 || k == 3;
    }
  }

  lemma LossIsTrace(cfg: Config, env: Env, senv: SnapshotEnv)
    requires !cfg.ephemeral && cfg.capacity == map[] && 0 <= cfg.maxVolumeSize && env.createOk
    requires senv.ok && !senv.badOptions && senv.uuid != ""
    ensures Moves(LossStates(cfg, env.node, senv), LossMoves(env, senv))
  {
    var states, moves := LossStates(cfg, env.node, senv), LossMoves(env, senv);
    FirstCreates(cfg, env, senv);
    FirstSnaps(cfg, env, senv);
    SecondCreates(cfg, env, senv);
    FirstUnsnaps(cfg, env, senv);
    FourMoves(states, moves);
  }

  /**
   * Two processes on an empty config map: the first creates a volume and a snapshot of it, the second creates another
   * volume, and when the first deletes its snapshot the other volume is gone, although nobody asked to delete a volume.
   */
  lemma StaleDeleteLosesVolume(cfg: Config, env: Env, senv: SnapshotEnv)
    requires !cfg.ephemeral && cfg.capacity == map[] && 0 <= cfg.maxVolumeSize && env.createOk
    requires senv.ok && !senv.badOptions && senv.uuid != ""
    ensures var states, moves := LossStates(cfg, env.node, senv), LossMoves(env, senv);
            && Moves(states, moves) && states[0].cell == None
            && "2" in IDs(VolumesIn(states[3])) && "2" !in IDs(VolumesIn(states[4]))
            && !Careful(states[3], moves[3])
  {
    var states, moves := LossStates(cfg, env.node, senv), LossMoves(env, senv);
    LossIsTrace(cfg, env, senv);
    FirstUnsnaps(cfg, env, senv);
    assert LossStored(cfg, env.node, senv)[2].volumes[1].volID == "2";
    assert "2" in IDs(VolumesIn(states[3])) && "2" !in IDs(VolumesIn(states[4]));
    SnapshotMove(states[3], moves[3], states[4]);
  }
}
