/**
 * Several driver processes that issue volume RPCs and also snapshot and group calls, interleaved in any way: what
 * all of them keep in the shared cell, and on which schedules none loses what another stored.
 */
module Fleet {
  import opened Common
  import opened KeyedList
  import opened Store
  import opened Driver
  import opened Lifecycle
  import opened Capacity
  import opened Groups
  import G = GroupInvariants
  import SnapshotEffects
  import opened Processes

  datatype Call = VolumeRpc(rpc: Rpc, reply: Reply) | SnapshotOp(op: Op)

  datatype Move = Move(proc: nat, call: Call)

  function ProcOf(c: Cluster, i: nat): Proc
    requires i < |c.procs|
  {
    Proc(c.procs[i].memory, c.cell)
  }

  function VolumesIn(c: Cluster): seq<Volume> { Contents(c.cell).volumes }

  /** One whole call by one process, as the contracts of Server and GroupServer promise it. */
  ghost predicate Moved(c: Cluster, m: Move, c': Cluster) {
    var i := m.proc;
    && i < |c.procs|
    && match m.call
       case VolumeRpc(rpc, reply) => Acts(c, i, rpc, reply, c') && !rpc.SnapshotCall?
       case SnapshotOp(op) =>
         && !op.VolumeCall? && (op.GroupCreate? ==> Supplied(op.vols, op.genv))
         && var q := Perform(c.procs[i].cfg, ProcOf(c, i), op);
            c' == Cluster(c.procs[i := c.procs[i].(memory := q.memory)], q.cell)
  }

  ghost predicate MovedAt(states: seq<Cluster>, moves: seq<Move>, k: nat)
    requires |states| == |moves| + 1 && k < |moves|
  {
    Moved(states[k], moves[k], states[k + 1])
  }

  ghost predicate Moves(states: seq<Cluster>, moves: seq<Move>) {
    |states| == |moves| + 1 && forall k | 0 <= k < |moves| :: MovedAt(states, moves, k)
  }

  /** A trace of volume RPCs is a trace of such calls. */
  lemma TraceIsMoves(states: seq<Cluster>, actions: seq<Action>)
    requires Trace(states, actions)
    ensures Moves(states, seq(|actions|, k requires 0 <= k < |actions| =>
                                           Move(actions[k].proc, VolumeRpc(actions[k].rpc, actions[k].reply))))
  {
    forall k | 0 <= k < |actions|
      ensures Moved(states[k], Move(actions[k].proc, VolumeRpc(actions[k].rpc, actions[k].reply)), states[k + 1])
    {
      assert TakenAt(states, actions, k);
    }
  }

  // ---- who knows the stored volumes ----

  /** The process remembers the volumes that are stored. */
  predicate Knows(c: Cluster, i: nat) { i < |c.procs| && c.procs[i].memory.volumes == VolumesIn(c) }

  /** The call deletes a snapshot or a group that its process remembers. */
  predicate Deletes(c: Cluster, m: Move) {
    m.proc < |c.procs| && m.call.SnapshotOp? && G.Rewrites(c.procs[m.proc].cfg, ProcOf(c, m.proc), m.call.op)
  }

  /** Deletions are left to processes that know the stored volumes. */
  predicate Careful(c: Cluster, m: Move) { Deletes(c, m) ==> Knows(c, m.proc) }

  /** A snapshot or group call keeps the stored volumes exactly if it is careful. */
  lemma SnapshotMove(c: Cluster, m: Move, c': Cluster)
    requires Moved(c, m, c') && m.call.SnapshotOp?
    ensures VolumesIn(c') == VolumesIn(c) <==> Careful(c, m)
  {
    G.OpKeepsVolumes(c.procs[m.proc].cfg, ProcOf(c, m.proc), m.call.op);
  }

  /** A volume RPC that gets as far as reading the store. */
  predicate Learns(c: Cluster, m: Move) {
    m.proc < |c.procs| && m.call.VolumeRpc? && LooksUp(c.procs[m.proc].cfg, m.call.rpc)
  }

  /** After such an RPC its process remembers exactly what is stored; any other volume RPC changes neither. */
  lemma LookupTeaches(c: Cluster, m: Move, c': Cluster)
    requires Moved(c, m, c') && Ready(c) && m.call.VolumeRpc?
    ensures if Learns(c, m) then ProcOf(c', m.proc).memory == Contents(c'.cell)
            else ProcOf(c', m.proc) == ProcOf(c, m.proc)
  {
    ReadyView(c, m.proc);
    if Learns(c, m) {
      ActRefinesMap(c, m.proc, m.call.rpc, m.call.reply, c');
      ReadyView(c', m.proc);
    } else {
      IdleUnlessLookedUp(c.procs[m.proc].cfg, ViewOf(c, m.proc), m.call.rpc);
    }
  }

  lemma IdleUnlessLookedUp(cfg: Config, s: Sys, rpc: Rpc)
    requires !LooksUp(cfg, rpc)
    ensures Decide(cfg, s, rpc).events == []
  {
  }

  /** A process that knows the stored volumes goes on knowing them exactly until another process changes them. */
  lemma MoveKeepsKnowledge(c: Cluster, m: Move, c': Cluster, j: nat)
    requires Moved(c, m, c') && Ready(c) && Knows(c, j)
    ensures Knows(c', j) <==> m.proc == j || VolumesIn(c') == VolumesIn(c)
  {
    if m.proc == j {
      match m.call
      case SnapshotOp(op) => G.OpKeepsKnowledge(c.procs[j].cfg, ProcOf(c, j), op);
      case VolumeRpc(_, _) => LookupTeaches(c, m, c');
    }
  }

  // ---- refinement with snapshots ----

  ghost predicate CarefulUpTo(states: seq<Cluster>, moves: seq<Move>, k: nat)
    requires |states| == |moves| + 1 && k < |states|
  {
    forall j | 0 <= j < k :: Careful(states[j], moves[j])
  }

  lemma SnapshotMoveKeepsReady(c: Cluster, m: Move, c': Cluster)
    requires Moved(c, m, c') && m.call.SnapshotOp? && Ready(c) && Careful(c, m)
    ensures Ready(c')
  {
    SnapshotMove(c, m, c');
    var p := ProcOf(c, m.proc);
    assert c.procs[m.proc] in c.procs;
    if c'.cell.None? {
      NothingStored(c.procs[m.proc].cfg, p, m.call.op);
      forall q | q in c'.procs ensures q.memory.groups == [] {
        var j :| 0 <= j < |c'.procs| && c'.procs[j] == q;
        if j != m.proc {
          assert c.procs[j] in c.procs;
        }
      }
    }
  }

  lemma NothingStored(cfg: Config, p: Proc, op: Op)
    requires !op.VolumeCall? && (op.GroupCreate? ==> Supplied(op.vols, op.genv))
    requires Perform(cfg, p, op).cell.None? && (p.cell.None? ==> p.memory.groups == [])
    ensures p.cell.None? && Perform(cfg, p, op).memory.groups == []
  {
    match op
    case GroupCreate(name, vols, env) =>
      if vols != [] {
        G.MembersKeepVolumes(cfg, p, name, vols, env, |vols|);
      }
    case _ =>
  }

  /** The call, seen in the cell: a step of the map machine, or no change of the volumes. */
  ghost predicate MoveOnMap(c: Cluster, m: Move, c': Cluster) {
    && m.proc < |c.procs|
    && match m.call
       case VolumeRpc(rpc, reply) =>
         !rpc.SnapshotCall? && IsMapStep(c, Action(m.proc, rpc, reply), Contents(c.cell).snapshots, c')
       case SnapshotOp(_) => VolumesIn(c') == VolumesIn(c)
  }

  lemma MoveRefinesMap(c: Cluster, m: Move, c': Cluster)
    requires Moved(c, m, c') && Ready(c) && Careful(c, m)
    ensures Ready(c') && MoveOnMap(c, m, c')
  {
    match m.call
    case VolumeRpc(rpc, reply) => ActionRefinesMap(c, Action(m.proc, rpc, reply), c');
    case SnapshotOp(_) =>
      SnapshotMove(c, m, c');
      SnapshotMoveKeepsReady(c, m, c');
  }

  /** As long as deletions are careful, every interleaving of all calls is a run of the one map machine. */
  lemma {:induction false} MovesRefineMap(states: seq<Cluster>, moves: seq<Move>, k: nat)
    requires Moves(states, moves) && Ready(states[0]) && k < |states| && CarefulUpTo(states, moves, k)
    ensures Ready(states[k])
    ensures k > 0 ==> MoveOnMap(states[k - 1], moves[k - 1], states[k])
  {
    if k > 0 {
      MovesRefineMap(states, moves, k - 1);
      assert MovedAt(states, moves, k - 1);
      MoveRefinesMap(states[k - 1], moves[k - 1], states[k]);
    }
  }

  // ---- schedules on which all deletions are careful ----

  /** Between the two states the other processes leave the stored volumes alone. */
  ghost predicate Undisturbed(states: seq<Cluster>, moves: seq<Move>, i: nat, a: nat, k: nat)
    requires |states| == |moves| + 1 && k <= |moves|
  {
    forall j | a <= j < k :: moves[j].proc == i || VolumesIn(states[j + 1]) == VolumesIn(states[j])
  }

  lemma {:induction false} KnowsSince(states: seq<Cluster>, moves: seq<Move>, i: nat, a: nat, k: nat)
    requires Moves(states, moves) && a <= k < |states| && Ready(states[a]) && Knows(states[a], i)
    requires Undisturbed(states, moves, i, a, k)
    ensures Ready(states[k]) && Knows(states[k], i)
  {
    if a < k {
      KnowsSince(states, moves, i, a, k - 1);
      var c, m, c' := states[k - 1], moves[k - 1], states[k];
      assert MovedAt(states, moves, k - 1);
      if m.call.SnapshotOp? {
        SnapshotMove(c, m, c');
      }
      MoveRefinesMap(c, m, c');
      MoveKeepsKnowledge(c, m, c', i);
    }
  }

  /** In this state process i has just looked something up, or it is the start and the process knows the volumes. */
  ghost predicate InformedAt(states: seq<Cluster>, moves: seq<Move>, i: nat, a: nat)
    requires |states| == |moves| + 1 && a <= |moves|
  {
    if a == 0 then Knows(states[0], i) else moves[a - 1].proc == i && Learns(states[a - 1], moves[a - 1])
  }

  /** If move k deletes, then its process has been informed and nobody has disturbed it since. */
  ghost predicate Informed(states: seq<Cluster>, moves: seq<Move>, k: nat)
    requires |states| == |moves| + 1 && k < |moves|
  {
    Deletes(states[k], moves[k]) ==>
      exists a | 0 <= a <= k :: && InformedAt(states, moves, moves[k].proc, a)
                                && Undisturbed(states, moves, moves[k].proc, a, k)
  }

  lemma LearnedKnows(c: Cluster, m: Move, c': Cluster)
    requires Moved(c, m, c') && Ready(c) && Learns(c, m)
    ensures Ready(c') && Knows(c', m.proc)
  {
    LookupTeaches(c, m, c');
    MoveRefinesMap(c, m, c');
  }

  lemma InformedKnows(states: seq<Cluster>, moves: seq<Move>, i: nat, a: nat)
    requires Moves(states, moves) && Ready(states[0]) && a <= |moves| && CarefulUpTo(states, moves, a)
    requires InformedAt(states, moves, i, a)
    ensures Ready(states[a]) && Knows(states[a], i)
  {
    if a > 0 {
      MovesRefineMap(states, moves, a - 1);
      assert MovedAt(states, moves, a - 1);
      LearnedKnows(states[a - 1], moves[a - 1], states[a]);
    }
  }

  /**
   * Deletions are careful whenever each is preceded by a lookup of the same process after which no other process
   * has changed a volume; nothing is asked about what a process remembers.
   */
  lemma {:induction false} InformedIsCareful(states: seq<Cluster>, moves: seq<Move>, k: nat)
    requires Moves(states, moves) && Ready(states[0]) && k < |states|
    requires forall j | 0 <= j < k :: Informed(states, moves, j)
    ensures CarefulUpTo(states, moves, k)
  {
    if k > 0 {
      var i := moves[k - 1].proc;
      InformedIsCareful(states, moves, k - 1);
      assert Informed(states, moves, k - 1);
      if Deletes(states[k - 1], moves[k - 1]) {
        var a :| 0 <= a <= k - 1 && InformedAt(states, moves, i, a) && Undisturbed(states, moves, i, a, k - 1);
        InformedKnows(states, moves, i, a);
        KnowsSince(states, moves, i, a, k - 1);
      }
    }
  }

  // ---- snapshots and groups ----

  /** In every memory and in the cell, the groups are whole. */
  ghost predicate AllWhole(c: Cluster) { forall i: nat | i < |c.procs| :: G.ProcOk(ProcOf(c, i)) }

  /** New UUIDs are new, and members of groups are deleted only through their group. */
  ghost predicate ProperMove(c: Cluster, m: Move) {
    m.call.SnapshotOp? && m.proc < |c.procs| ==> G.Proper(ProcOf(c, m.proc), m.call.op)
  }

  lemma RpcKeepsWhole(c: Cluster, i: nat, rpc: Rpc, reply: Reply, c': Cluster)
    requires Acts(c, i, rpc, reply, c') && !rpc.SnapshotCall? && G.ProcOk(ProcOf(c, i))
    ensures G.ProcOk(ProcOf(c', i)) && (c'.cell.None? ==> c.cell.None?)
  {
    VolumeRpcFrame(c.procs[i].cfg, ViewOf(c, i), rpc);
    G.ReloadedOk(ProcOf(c, i));
    G.SameGroupsOk(ViewOf(c, i).res, ViewOf(c', i).res);
  }

  lemma OpKeepsWhole(c: Cluster, i: nat, op: Op, c': Cluster)
    requires Moved(c, Move(i, SnapshotOp(op)), c') && G.ProcOk(ProcOf(c, i)) && G.Proper(ProcOf(c, i), op)
    ensures G.ProcOk(ProcOf(c', i)) && (c'.cell.None? ==> c.cell.None?)
  {
    G.OpOk(c.procs[i].cfg, ProcOf(c, i), op);
    if c'.cell.None? {
      NothingStored(c.procs[i].cfg, ProcOf(c, i), op);
    }
  }

  lemma MoveKeepsWhole(c: Cluster, m: Move, c': Cluster)
    requires Moved(c, m, c') && AllWhole(c) && ProperMove(c, m)
    ensures AllWhole(c')
  {
    var i := m.proc;
    assert G.ProcOk(ProcOf(c, i));
    match m.call {
      case SnapshotOp(op) => OpKeepsWhole(c, i, op, c');
      case VolumeRpc(rpc, reply) => RpcKeepsWhole(c, i, rpc, reply, c');
    }
    forall j: nat | j < |c'.procs| ensures G.ProcOk(ProcOf(c', j)) {
      assert G.ProcOk(ProcOf(c, j));
    }
  }

  /**
   * In every interleaving of all calls, careful or not, in every memory and in the cell: the IDs of each group
   * resolve to exactly the snapshots that carry its ID, and their volumes are its source volumes.
   */
  lemma {:induction false} FleetKeepsGroups(states: seq<Cluster>, moves: seq<Move>, k: nat)
    requires Moves(states, moves) && k < |states| && AllWhole(states[0])
    requires forall j | 0 <= j < k :: ProperMove(states[j], moves[j])
    ensures AllWhole(states[k])
  {
    if k > 0 {
      FleetKeepsGroups(states, moves, k - 1);
      assert MovedAt(states, moves, k - 1);
      MoveKeepsWhole(states[k - 1], moves[k - 1], states[k]);
    }
  }

  /** The process remembers all that is stored, up to the order within each group. */
  ghost predicate InStep(c: Cluster, i: nat) { i < |c.procs| && G.InStep(ProcOf(c, i)) }

  /** Until another process writes, such a process stays in step. */
  lemma MoveKeepsInStep(c: Cluster, m: Move, c': Cluster, i: nat)
    requires Moved(c, m, c') && Ready(c) && InStep(c, i) && (m.proc == i || c'.cell == c.cell)
    ensures Ready(c') && InStep(c', i)
  {
    if m.call.SnapshotOp? {
      SnapshotMove(c, m, c');
    }
    MoveRefinesMap(c, m, c');
    if m.proc == i {
      assert c.procs[i] in c.procs;
      match m.call
      case SnapshotOp(op) => G.OpKeepsInStep(c.procs[i].cfg, ProcOf(c, i), op);
      case VolumeRpc(rpc, reply) =>
        LookupTeaches(c, m, c');
        if Learns(c, m) {
          G.SameIsInStep(ProcOf(c', i));
        }
    }
  }

  /** Between the two states no other process writes. */
  ghost predicate Alone(states: seq<Cluster>, moves: seq<Move>, i: nat, a: nat, k: nat)
    requires |states| == |moves| + 1 && k <= |moves|
  {
    forall j | a <= j < k :: moves[j].proc == i || states[j + 1].cell == states[j].cell
  }

  lemma {:induction false} InStepSince(states: seq<Cluster>, moves: seq<Move>, i: nat, a: nat, k: nat)
    requires Moves(states, moves) && a <= k < |states| && Ready(states[a]) && InStep(states[a], i)
    requires Alone(states, moves, i, a, k)
    ensures Ready(states[k]) && InStep(states[k], i)
  {
    if a < k {
      InStepSince(states, moves, i, a, k - 1);
      assert MovedAt(states, moves, k - 1);
      MoveKeepsInStep(states[k - 1], moves[k - 1], states[k], i);
    }
  }

  /**
   * A process that has looked something up, and after which no other process has written, loses nothing by deleting
   * a snapshot or a group: all volumes and all other snapshots and groups stay stored, and no deleted one comes back.
   */
  lemma InformedDeletion(states: seq<Cluster>, moves: seq<Move>, a: nat, k: nat)
    requires Moves(states, moves) && 0 < a <= k < |moves| && Ready(states[a - 1]) && AllWhole(states[k])
    requires moves[a - 1].proc == moves[k].proc && Learns(states[a - 1], moves[a - 1])
    requires Alone(states, moves, moves[k].proc, a, k) && Deletes(states[k], moves[k])
    ensures VolumesIn(states[k + 1]) == VolumesIn(states[k])
    ensures G.SameOthers(ProcOf(states[k], moves[k].proc), moves[k].call.op,
                         Contents(states[k + 1].cell), Contents(states[k].cell))
  {
    var i := moves[k].proc;
    assert MovedAt(states, moves, a - 1) && MovedAt(states, moves, k);
    LookupTeaches(states[a - 1], moves[a - 1], states[a]);
    MoveRefinesMap(states[a - 1], moves[a - 1], states[a]);
    G.SameIsInStep(ProcOf(states[a], i));
    InStepSince(states, moves, i, a, k);
    SnapshotMove(states[k], moves[k], states[k + 1]);
    assert G.ProcOk(ProcOf(states[k], i));
    G.RewriteKeepsOthers(states[k].procs[i].cfg, ProcOf(states[k], i), moves[k].call.op);
  }

  // ---- repeated snapshots ----

  /** The first stored snapshot of the name. */
  predicate StoredFirst(c: Cluster, name: string, snap: Snapshot) {
    c.cell.Some? && Find(SnapshotName, c.cell.value.snapshots, name) == Some(snap)
  }

  predicate RemembersFirst(c: Cluster, i: nat, name: string, snap: Snapshot) {
    i < |c.procs| && Find(SnapshotName, c.procs[i].memory.snapshots, name) == Some(snap)
  }

  lemma MoveRemembers(c: Cluster, m: Move, c': Cluster, i: nat, name: string, snap: Snapshot)
    requires Moved(c, m, c') && StoredFirst(c, name, snap) && StoredFirst(c', name, snap)
    requires RemembersFirst(c, i, name, snap)
    ensures RemembersFirst(c', i, name, snap)
  {
    if m.proc == i && m.call.SnapshotOp? {
      SnapshotEffects.OpRemembers(c.procs[i].cfg, ProcOf(c, i), m.call.op);
    }
  }

  /**
   * A process that remembers a snapshot as the first of its name answers a repeated request with it, and the same name
   * for another volume with AlreadyExists, over every interleaving during which it stays the first one stored.
   */
  lemma {:induction false} RepeatedInFleet(states: seq<Cluster>, moves: seq<Move>, i: nat, a: nat, k: nat,
                                           name: string, snap: Snapshot, vol: string, env: SnapshotEnv)
    requires Moves(states, moves) && a <= k < |states| && RemembersFirst(states[a], i, name, snap)
    requires forall j | a <= j <= k :: StoredFirst(states[j], name, snap)
    ensures RemembersFirst(states[k], i, name, snap)
    ensures var cfg, p := states[k].procs[i].cfg, ProcOf(states[k], i);
            !cfg.ephemeral && name != "" && vol != "" ==>
              CreateSnapshot(cfg, p, name, vol, env)
              == Result(p, if vol == snap.volID then OneSnapshot(snap) else Error(AlreadyExists))
  {
    if a < k {
      RepeatedInFleet(states, moves, i, a, k - 1, name, snap, vol, env);
      assert MovedAt(states, moves, k - 1);
      MoveRemembers(states[k - 1], moves[k - 1], states[k], i, name, snap);
    }
    var cfg, p := states[k].procs[i].cfg, ProcOf(states[k], i);
    if !cfg.ephemeral && name != "" && vol != "" {
      SnapshotEffects.TakenName(cfg, p, name, vol, env, snap);
    }
  }

  // ---- the invariants of the cell ----

  /** All processes run with one configuration, each on a node of its own. */
  ghost predicate OneSetup(cfg: Config, c: Cluster) {
    forall p | p in c.procs :: p.cfg == cfg.(nodeID := p.cfg.nodeID)
  }

  /** The volume RPC of the call; GetCapacity stands for the calls that are none. */
  function RpcOf(m: Move): Rpc {
    match m.call case VolumeRpc(rpc, _) => rpc case SnapshotOp(_) => GetCapacity("")
  }

  lemma MoveKeepsSetup(cfg: Config, c: Cluster, m: Move, c': Cluster)
    requires Moved(c, m, c') && OneSetup(cfg, c)
    ensures OneSetup(cfg, c')
  {
    forall p | p in c'.procs ensures p.cfg == cfg.(nodeID := p.cfg.nodeID) {
      var j :| 0 <= j < |c'.procs| && c'.procs[j] == p;
      assert c.procs[j] in c.procs;
    }
  }

  /** The calls that are no volume RPC count as one that does nothing. */
  lemma NoCapacityEvents(cfg: Config, s: Sys)
    ensures Step(cfg, s, GetCapacity("")) == s
  {
    ApplyFew(s, []);
  }

  /** What a call does to the stored volumes: what its RPC does in Driver, for the configuration of all processes. */
  lemma MoveIsStep(cfg: Config, c: Cluster, m: Move, c': Cluster) returns (own: Config, s: Sys)
    requires Moved(c, m, c') && Ready(c) && Careful(c, m) && OneSetup(cfg, c)
    ensures own == cfg.(nodeID := own.nodeID) && s.res.volumes == VolumesIn(c)
    ensures Step(own, s, RpcOf(m)).res.volumes == VolumesIn(c')
  {
    own, s := c.procs[m.proc].cfg, ViewOf(c, m.proc);
    assert c.procs[m.proc] in c.procs;
    ReadyView(c, m.proc);
    match m.call
    case VolumeRpc(rpc, reply) =>
      MoveRefinesMap(c, m, c');
      ReadyView(c', m.proc);
    case SnapshotOp(_) =>
      SnapshotMove(c, m, c');
      NoCapacityEvents(own, s);
  }

  lemma OneStep(cfg: Config, s: Sys, rpc: Rpc)
    ensures Run(cfg, s, [rpc]) == Step(cfg, s, rpc)
  {
    assert Run(cfg, Step(cfg, s, rpc), [rpc][1..]) == Step(cfg, s, rpc);
  }

  ghost predicate AllProper(vs: seq<Volume>) { forall v | v in vs :: Proper(v) }

  lemma MoveKeepsProper(cfg: Config, c: Cluster, m: Move, c': Cluster)
    requires Moved(c, m, c') && Ready(c) && Careful(c, m) && OneSetup(cfg, c)
    requires cfg.enableAttach && cfg.checkLifecycle && Allowed(RpcOf(m)) && AllProper(VolumesIn(c))
    ensures AllProper(VolumesIn(c'))
  {
    var own, s := MoveIsStep(cfg, c, m, c');
    StepKeepsInv(own, s, RpcOf(m));
  }

  lemma MoveKeepsSizes(cfg: Config, c: Cluster, m: Move, c': Cluster)
    requires Moved(c, m, c') && Ready(c) && Careful(c, m) && OneSetup(cfg, c)
    requires 0 <= cfg.maxVolumeSize && NonNegative(RpcOf(m)) && SizesIn(VolumesIn(c), cfg.maxVolumeSize)
    ensures SizesIn(VolumesIn(c'), cfg.maxVolumeSize)
  {
    var own, s := MoveIsStep(cfg, c, m, c');
    RunKeepsSizes(own, s, [RpcOf(m)]);
    OneStep(own, s, RpcOf(m));
  }

  lemma SamePools(cfg: Config, own: Config, vs: seq<Volume>)
    requires own == cfg.(nodeID := own.nodeID)
    ensures Sane(own) <==> Sane(cfg)
    ensures WithinPools(own, vs) <==> WithinPools(cfg, vs)
  {
    assert forall k :: Quota(own, k) == Quota(cfg, k);
  }

  lemma MoveKeepsPools(cfg: Config, c: Cluster, m: Move, c': Cluster)
    requires Moved(c, m, c') && Ready(c) && Careful(c, m) && OneSetup(cfg, c)
    requires Sane(cfg) && |cfg.capacity| > 0 && NonNegative(RpcOf(m)) && !RpcOf(m).Expand?
    requires SizesIn(VolumesIn(c), cfg.maxVolumeSize) && WithinPools(cfg, VolumesIn(c))
    ensures WithinPools(cfg, VolumesIn(c'))
  {
    var own, s := MoveIsStep(cfg, c, m, c');
    SamePools(cfg, own, VolumesIn(c));
    RunKeepsPools(own, s, [RpcOf(m)]);
    OneStep(own, s, RpcOf(m));
    SamePools(cfg, own, VolumesIn(c'));
  }

  lemma MoveKeepsAttachLimit(cfg: Config, c: Cluster, m: Move, c': Cluster)
    requires Moved(c, m, c') && Ready(c) && Careful(c, m) && OneSetup(cfg, c)
    requires cfg.attachLimit > 0 && AttachCount(VolumesIn(c)) <= cfg.attachLimit
    ensures AttachCount(VolumesIn(c')) <= cfg.attachLimit
  {
    var own, s := MoveIsStep(cfg, c, m, c');
    RunKeepsAttachLimit(own, s, [RpcOf(m)]);
    OneStep(own, s, RpcOf(m));
  }

  /** From an empty cell, the conditions on the calls under which each invariant holds. */
  ghost predicate Names(moves: seq<Move>) { forall m | m in moves :: Allowed(RpcOf(m)) }

  ghost predicate Sizes(moves: seq<Move>) { forall m | m in moves :: NonNegative(RpcOf(m)) }

  ghost predicate NoExpansion(moves: seq<Move>) { forall m | m in moves :: !RpcOf(m).Expand? }

  ghost predicate Healthy(cfg: Config, vs: seq<Volume>, moves: seq<Move>) {
    && Wf(vs)
    && (cfg.enableAttach && cfg.checkLifecycle && Names(moves) ==> AllProper(vs))
    && (0 <= cfg.maxVolumeSize && Sizes(moves) ==> SizesIn(vs, cfg.maxVolumeSize))
    && (Sane(cfg) && |cfg.capacity| > 0 && Sizes(moves) && NoExpansion(moves) ==> WithinPools(cfg, vs))
    && (cfg.attachLimit > 0 ==> AttachCount(vs) <= cfg.attachLimit)
  }

  lemma MoveKeepsHealth(cfg: Config, c: Cluster, m: Move, c': Cluster, moves: seq<Move>)
    requires Moved(c, m, c') && Ready(c) && Careful(c, m) && OneSetup(cfg, c)
    requires m in moves && Healthy(cfg, VolumesIn(c), moves)
    ensures Healthy(cfg, VolumesIn(c'), moves)
  {
    MoveRefinesMap(c, m, c');
    if cfg.enableAttach && cfg.checkLifecycle && Names(moves) {
      MoveKeepsProper(cfg, c, m, c');
    }
    if 0 <= cfg.maxVolumeSize && Sizes(moves) {
      MoveKeepsSizes(cfg, c, m, c');
    }
    if Sane(cfg) && |cfg.capacity| > 0 && Sizes(moves) && NoExpansion(moves) {
      MoveKeepsPools(cfg, c, m, c');
    }
    if cfg.attachLimit > 0 {
      MoveKeepsAttachLimit(cfg, c, m, c');
    }
  }

  lemma {:induction false} MovesKeepHealth(cfg: Config, states: seq<Cluster>, moves: seq<Move>, k: nat)
    requires Moves(states, moves) && k < |states| && CarefulUpTo(states, moves, k)
    requires Ready(states[0]) && OneSetup(cfg, states[0]) && Healthy(cfg, VolumesIn(states[0]), moves)
    ensures Ready(states[k]) && OneSetup(cfg, states[k]) && Healthy(cfg, VolumesIn(states[k]), moves)
  {
    if k > 0 {
      MovesKeepHealth(cfg, states, moves, k - 1);
      assert MovedAt(states, moves, k - 1);
      MoveRefinesMap(states[k - 1], moves[k - 1], states[k]);
      MoveKeepsSetup(cfg, states[k - 1], moves[k - 1], states[k]);
      MoveKeepsHealth(cfg, states[k - 1], moves[k - 1], states[k], moves);
    }
  }

  lemma NothingIsHealthy(cfg: Config, moves: seq<Move>)
    ensures Healthy(cfg, [], moves)
  {
  }

  /**
   * Any number of processes with one configuration, started on an empty config map, and any interleaving of their
   * calls with careful deletions: in every state the stored volumes have unique IDs and names, keep the lifecycle
   * order, the sizes, the pools and the attach limit, each under its own conditions on the calls.
   */
  lemma FleetStates(cfg: Config, states: seq<Cluster>, moves: seq<Move>, k: nat)
    requires Moves(states, moves) && k < |states| && CarefulUpTo(states, moves, k)
    requires states[0].cell.None? && OneSetup(cfg, states[0]) && forall p | p in states[0].procs :: p.memory == NOTHING
    ensures Healthy(cfg, VolumesIn(states[k]), moves)
  {
    NothingIsHealthy(cfg, moves);
    MovesKeepHealth(cfg, states, moves, k);
  }
}
