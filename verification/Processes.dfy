/**
 * Any number of driver processes over one config map: whatever the processes hold in memory,
 * whole volume RPCs interleaved in any way act like one sequential map from ID to volume.
 */
module Processes {
  import opened Common
  import opened KeyedList
  import opened Store
  import opened Driver
  import opened Lifecycle
  import Server

  datatype Process = Process(cfg: Config, memory: Resources, mounts: map<string, string>)

  datatype Cluster = Cluster(procs: seq<Process>, cell: Option<Resources>)

  function Contents(cell: Option<Resources>): Resources {
    match cell case None => NOTHING case Some(r) => r
  }

  function ViewOf(c: Cluster, i: nat): Sys
    requires i < |c.procs|
  {
    Sys(Reload(c.procs[i].memory, c.cell), c.procs[i].mounts)
  }

  function LocalOf(c: Cluster, i: nat): Server.Local
    requires i < |c.procs|
  {
    Server.Local(c.procs[i].memory, c.procs[i].mounts, c.cell)
  }

  /** One whole RPC by process i, as Server.HostPath.Handle carries it out. */
  ghost predicate Acts(c: Cluster, i: nat, rpc: Rpc, reply: Reply, c': Cluster) {
    && i < |c.procs| == |c'.procs|
    && (forall j | 0 <= j < |c.procs| && j != i :: c'.procs[j] == c.procs[j])
    && c'.procs[i].cfg == c.procs[i].cfg
    && Server.Handled(c.procs[i].cfg, LocalOf(c, i), rpc, reply, LocalOf(c', i))
  }

  /** Before anything is stored, no process remembers a group snapshot. */
  ghost predicate Ready(c: Cluster) {
    && Wf(Contents(c.cell).volumes)
    && (c.cell.None? ==> forall p | p in c.procs :: p.memory.groups == [])
  }

  lemma ReadyView(c: Cluster, i: nat)
    requires Ready(c) && i < |c.procs|
    ensures ViewOf(c, i).res == Contents(c.cell)
  {
    assert c.procs[i] in c.procs;
  }

  // ---- the sequential machine: a map from volume ID to volume ----

  ghost function IDs(vs: seq<Volume>): set<string> { set v | v in vs :: v.volID }

  ghost function AsMap(vs: seq<Volume>): map<string, Volume> {
    map id | id in IDs(vs) :: FindIn(vs, id)
  }

  ghost function FindIn(vs: seq<Volume>, id: string): Volume
    requires id in IDs(vs)
  {
    FindNone(VolumeID, vs, id);
    Find(VolumeID, vs, id).value
  }

  /** What one event does to the map. */
  function MapEvent(m: map<string, Volume>, e: Event): map<string, Volume> {
    if e.Erase? then m - {e.v.volID}
    else match After(e) case Some(v) => m[v.volID := v] case None => m
  }

  function MapAfter(m: map<string, Volume>, es: seq<Event>): map<string, Volume> {
    if es == [] then m else MapEvent(MapAfter(m, es[..|es| - 1]), es[|es| - 1])
  }

  /** A step of the map machine: decided on some list of the map's volumes, in any order. */
  ghost predicate MapStep(cfg: Config, m: map<string, Volume>, snapshots: seq<Snapshot>, mounts: map<string, string>,
                          rpc: Rpc, reply: Reply, m': map<string, Volume>) {
    exists vs :: && Wf(vs) && AsMap(vs) == m
                 && var o := Decide(cfg, Sys(Resources(vs, snapshots, []), mounts), rpc);
                    reply == o.reply && m' == MapAfter(m, o.events)
  }

  // ---- the order of the list does not matter ----

  ghost predicate SameVolumes(vs: seq<Volume>, ws: seq<Volume>) {
    Wf(vs) && Wf(ws) && forall v :: v in vs <==> v in ws
  }

  lemma DistinctHasNoDuplicates(vs: seq<Volume>)
    requires Distinct(VolumeID, vs)
    ensures NoDuplicates(vs)
  {
    forall i, j | 0 <= i < j < |vs| ensures vs[i] != vs[j] {
      assert VolumeID(vs[i]) != VolumeID(vs[j]);
    }
  }

  lemma SameMultiset(vs: seq<Volume>, ws: seq<Volume>)
    requires SameVolumes(vs, ws)
    ensures multiset(vs) == multiset(ws)
  {
    DistinctHasNoDuplicates(vs);
    DistinctHasNoDuplicates(ws);
    NoDuplicatesCount(vs);
    NoDuplicatesCount(ws);
    forall v ensures multiset(vs)[v] == multiset(ws)[v] {
      assert v in vs <==> v in ws;
      assert v in vs <==> multiset(vs)[v] > 0;
      assert v in ws <==> multiset(ws)[v] > 0;
    }
  }

  /** Everything an RPC asks a volume list gives the same answer on both lists. */
  ghost predicate SameAnswers(vs: seq<Volume>, ws: seq<Volume>) {
    && (forall k :: Find(VolumeID, vs, k) == Find(VolumeID, ws, k))
    && (forall k :: Find(VolumeName, vs, k) == Find(VolumeName, ws, k))
    && (forall k :: Used(vs, k) == Used(ws, k))
    && AttachCount(vs) == AttachCount(ws)
  }

  lemma SameFind(key: Volume -> string, vs: seq<Volume>, ws: seq<Volume>, k: string)
    requires Distinct(key, vs) && Distinct(key, ws) && forall v :: v in vs <==> v in ws
    ensures Find(key, vs, k) == Find(key, ws, k)
  {
    var a, b := Find(key, vs, k), Find(key, ws, k);
    if a.Some? {
      FindIsMember(key, ws, a.value);
    } else if b.Some? {
      FindIsMember(key, vs, b.value);
    }
  }

  lemma SameVolumesAnswer(vs: seq<Volume>, ws: seq<Volume>)
    requires SameVolumes(vs, ws)
    ensures SameAnswers(vs, ws)
  {
    SameMultiset(vs, ws);
    forall k ensures Find(VolumeID, vs, k) == Find(VolumeID, ws, k) { SameFind(VolumeID, vs, ws, k); }
    forall k ensures Find(VolumeName, vs, k) == Find(VolumeName, ws, k) { SameFind(VolumeName, vs, ws, k); }
    forall k ensures Used(vs, k) == Used(ws, k) { SumOfPermutation(SizeOf(k), vs, ws); }
    SumOfPermutation(AttachedOne, vs, ws);
  }

  lemma SameFits(cfg: Config, vs: seq<Volume>, ws: seq<Volume>, kind: string, size: Int64)
    requires SameAnswers(vs, ws)
    ensures Fits(cfg, vs, kind, size) == Fits(cfg, ws, kind, size)
  {
    assert Used(vs, kind) == Used(ws, kind);
  }

  lemma {:induction false} SamePick(cfg: Config, vs: seq<Volume>, ws: seq<Volume>, size: Int64, kinds: seq<string>)
    requires SameAnswers(vs, ws)
    ensures PickKind(cfg, vs, size, kinds) == PickKind(cfg, ws, size, kinds)
  {
    if kinds != [] {
      SameFits(cfg, vs, ws, kinds[0], size);
      SamePick(cfg, vs, ws, size, kinds[1..]);
    }
  }

  lemma SameAdmission(cfg: Config, vs: seq<Volume>, ws: seq<Volume>, kind: string, size: Int64, kinds: seq<string>)
    requires SameAnswers(vs, ws)
    ensures Admit(cfg, vs, kind, size, kinds) == Admit(cfg, ws, kind, size, kinds)
  {
    SamePick(cfg, vs, ws, size, kinds);
    SameFits(cfg, vs, ws, if kind == "" then PickKind(cfg, vs, size, kinds) else kind, size);
  }

  lemma SameCreation(cfg: Config, vs: seq<Volume>, ws: seq<Volume>, id: string, name: string, size: Int64,
                     access: AccessType, ephemeral: bool, kind: string, env: Env)
    requires SameAnswers(vs, ws)
    ensures NewVolume(cfg, vs, id, name, size, access, ephemeral, kind, env)
         == NewVolume(cfg, ws, id, name, size, access, ephemeral, kind, env)
  {
    SameAdmission(cfg, vs, ws, kind, size, env.kinds);
  }

  lemma SameAfterCreate(vs: seq<Volume>, ws: seq<Volume>, v: Volume)
    requires SameVolumes(vs, ws) && Find(VolumeName, vs, v.volName).None?
    ensures SameAnswers(Put(VolumeID, vs, v), Put(VolumeID, ws, v))
  {
    SameVolumesAnswer(vs, ws);
    FindNone(VolumeName, vs, v.volName);
    FindNone(VolumeName, ws, v.volName);
    PutMembers(VolumeID, vs, v);
    PutMembers(VolumeID, ws, v);
    PutKeepsOther(VolumeID, VolumeName, vs, v);
    PutKeepsOther(VolumeID, VolumeName, ws, v);
    SameVolumesAnswer(Put(VolumeID, vs, v), Put(VolumeID, ws, v));
  }

  lemma SameLoad(r1: Resources, r2: Resources, req: CreateRequest, access: AccessType, env: Env)
    requires SameAnswers(r1.volumes, r2.volumes) && r1.snapshots == r2.snapshots
    ensures LoadContent(r1, req, access, env) == LoadContent(r2, req, access, env)
  {
  }

  lemma SameCreateDecision(cfg: Config, s: Sys, t: Sys, req: CreateRequest, env: Env)
    requires SameVolumes(s.res.volumes, t.res.volumes) && s.res.snapshots == t.res.snapshots
    requires Find(VolumeName, s.res.volumes, req.name).None?
    ensures CreateNew(cfg, s, req, env) == CreateNew(cfg, t, req, env)
  {
    var vs, ws := s.res.volumes, t.res.volumes;
    SameVolumesAnswer(vs, ws);
    var access := if req.block then BlockAccess else MountAccess;
    SameCreation(cfg, vs, ws, env.uuid, req.name, req.size, access, false, req.kind, env);
    var made := NewVolume(cfg, vs, env.uuid, req.name, req.size, access, false, req.kind, env);
    if made.Made? {
      SameAfterCreate(vs, ws, made.v);
      SameLoad(Apply(s, Create(made.v)).res, Apply(t, Create(made.v)).res, req, made.v.accessType, env);
    }
  }

  lemma SamePublishExisting(cfg: Config, s: Sys, t: Sys, req: PublishRequest, env: Env)
    requires SameAnswers(s.res.volumes, t.res.volumes) && s.mounts == t.mounts
    ensures PublishExisting(cfg, s, req, env) == PublishExisting(cfg, t, req, env)
  {
  }

  lemma SamePublishNew(cfg: Config, s: Sys, t: Sys, req: PublishRequest, env: Env)
    requires SameVolumes(s.res.volumes, t.res.volumes) && s.mounts == t.mounts
    requires Find(VolumeName, s.res.volumes, EphemeralName(req.id)).None?
    ensures PublishNew(cfg, s, req, env) == PublishNew(cfg, t, req, env)
  {
    var vs, ws, name := s.res.volumes, t.res.volumes, EphemeralName(req.id);
    SameVolumesAnswer(vs, ws);
    SameCreation(cfg, vs, ws, req.id, name, MIB100, MountAccess, true, req.kind, env);
    var made := NewVolume(cfg, vs, req.id, name, MIB100, MountAccess, true, req.kind, env);
    if made.Made? {
      SameAfterCreate(vs, ws, made.v);
      SamePublishExisting(cfg, Apply(s, Create(made.v)), Apply(t, Create(made.v)), req, env);
    }
  }

  lemma SameControllerDecision(cfg: Config, s: Sys, t: Sys, rpc: Rpc)
    requires SameAnswers(s.res.volumes, t.res.volumes)
    requires rpc.DeleteVolume? || rpc.ControllerPublish? || rpc.ControllerUnpublish? || rpc.Expand? || rpc.GetCapacity?
    ensures Decide(cfg, s, rpc) == Decide(cfg, t, rpc)
  {
  }

  lemma SameNodeDecision(cfg: Config, s: Sys, t: Sys, rpc: Rpc)
    requires SameAnswers(s.res.volumes, t.res.volumes)
    requires rpc.NodeStage? || rpc.NodeUnstage? || rpc.NodeUnpublish?
    ensures Decide(cfg, s, rpc) == Decide(cfg, t, rpc)
  {
  }

  /** The decision of every volume RPC is a function of the map of volumes. */
  lemma OrderIrrelevant(cfg: Config, s: Sys, t: Sys, rpc: Rpc)
    requires SameVolumes(s.res.volumes, t.res.volumes) && s.mounts == t.mounts
    requires s.res.snapshots == t.res.snapshots && !rpc.SnapshotCall?
    ensures Decide(cfg, s, rpc) == Decide(cfg, t, rpc)
  {
    SameVolumesAnswer(s.res.volumes, t.res.volumes);
    if rpc.CreateVolume? {
      if Find(VolumeName, s.res.volumes, rpc.create.name).None? {
        SameCreateDecision(cfg, s, t, rpc.create, rpc.env);
      }
    } else if rpc.NodePublish? {
      SamePublishExisting(cfg, s, t, rpc.publish, rpc.env);
      if Find(VolumeName, s.res.volumes, EphemeralName(rpc.publish.id)).None? {
        SamePublishNew(cfg, s, t, rpc.publish, rpc.env);
      }
    } else if rpc.NodeStage? || rpc.NodeUnstage? || rpc.NodeUnpublish? {
      SameNodeDecision(cfg, s, t, rpc);
    } else {
      SameControllerDecision(cfg, s, t, rpc);
    }
  }

  lemma MapDeterminesVolumes(vs: seq<Volume>, ws: seq<Volume>)
    requires Wf(vs) && Wf(ws) && AsMap(vs) == AsMap(ws)
    ensures SameVolumes(vs, ws)
  {
    forall v ensures v in vs <==> v in ws {
      InMap(vs, v);
      InMap(ws, v);
    }
  }

  lemma InMap(vs: seq<Volume>, v: Volume)
    requires Wf(vs)
    ensures v in vs <==> v.volID in AsMap(vs) && AsMap(vs)[v.volID] == v
  {
    FindIsMember(VolumeID, vs, v);
  }

  /** The map machine is deterministic: its reply and next map depend on the map alone. */
  lemma MapStepIsFunction(cfg: Config, m: map<string, Volume>, snapshots: seq<Snapshot>, mounts: map<string, string>,
                          rpc: Rpc, r1: Reply, m1: map<string, Volume>, r2: Reply, m2: map<string, Volume>)
    requires !rpc.SnapshotCall?
    requires MapStep(cfg, m, snapshots, mounts, rpc, r1, m1) && MapStep(cfg, m, snapshots, mounts, rpc, r2, m2)
    ensures r1 == r2 && m1 == m2
  {
    var vs :| Wf(vs) && AsMap(vs) == m
              && var o := Decide(cfg, Sys(Resources(vs, snapshots, []), mounts), rpc);
                 r1 == o.reply && m1 == MapAfter(m, o.events);
    var ws :| Wf(ws) && AsMap(ws) == m
              && var o := Decide(cfg, Sys(Resources(ws, snapshots, []), mounts), rpc);
                 r2 == o.reply && m2 == MapAfter(m, o.events);
    MapDeterminesVolumes(vs, ws);
    OrderIrrelevant(cfg, Sys(Resources(vs, snapshots, []), mounts), Sys(Resources(ws, snapshots, []), mounts), rpc);
  }

  // ---- refinement ----

  lemma AsMapIs(vs: seq<Volume>, m: map<string, Volume>)
    requires Wf(vs)
    requires forall v | v in vs :: v.volID in m && m[v.volID] == v
    requires forall id | id in m :: m[id] in vs && m[id].volID == id
    ensures AsMap(vs) == m
  {
    forall id ensures id in IDs(vs) <==> id in m {}
    forall id | id in m ensures AsMap(vs)[id] == m[id] {
      InMap(vs, m[id]);
    }
  }

  lemma AsMapHas(vs: seq<Volume>)
    requires Wf(vs)
    ensures forall v | v in vs :: v.volID in AsMap(vs) && AsMap(vs)[v.volID] == v
    ensures forall id | id in AsMap(vs) :: AsMap(vs)[id] in vs && AsMap(vs)[id].volID == id
  {
    forall v | v in vs ensures v.volID in AsMap(vs) && AsMap(vs)[v.volID] == v {
      InMap(vs, v);
    }
  }

  lemma PutAsMap(vs: seq<Volume>, v: Volume)
    requires Wf(vs) && Wf(Put(VolumeID, vs, v))
    ensures AsMap(Put(VolumeID, vs, v)) == AsMap(vs)[v.volID := v]
  {
    PutMembers(VolumeID, vs, v);
    AsMapHas(vs);
    AsMapIs(Put(VolumeID, vs, v), AsMap(vs)[v.volID := v]);
  }

  lemma DropAsMap(vs: seq<Volume>, id: string)
    requires Wf(vs) && Wf(Drop(VolumeID, vs, id))
    ensures AsMap(Drop(VolumeID, vs, id)) == AsMap(vs) - {id}
  {
    DropMembers(VolumeID, vs, id);
    AsMapHas(vs);
    AsMapIs(Drop(VolumeID, vs, id), AsMap(vs) - {id});
  }

  lemma EventAsMap(cfg: Config, s: Sys, rpc: Rpc, e: Event)
    requires Wf(s.res.volumes) && Occurs(cfg, s, rpc, e)
    ensures Wf(Apply(s, e).res.volumes)
    ensures AsMap(Apply(s, e).res.volumes) == MapEvent(AsMap(s.res.volumes), e)
  {
    EventKeepsWf(cfg, s, rpc, e);
    if e.Erase? {
      DropAsMap(s.res.volumes, e.v.volID);
    } else if After(e).Some? {
      PutAsMap(s.res.volumes, After(e).value);
    }
  }

  lemma MapFew(m: map<string, Volume>, es: seq<Event>)
    ensures |es| == 0 ==> MapAfter(m, es) == m
    ensures |es| == 1 ==> MapAfter(m, es) == MapEvent(m, es[0])
    ensures |es| == 2 ==> MapAfter(m, es) == MapEvent(MapEvent(m, es[0]), es[1])
  {
    if |es| == 2 {
      assert es[..1][..0] == [];
    }
  }

  lemma StepAsMap(cfg: Config, s: Sys, rpc: Rpc)
    requires Wf(s.res.volumes)
    ensures Wf(Step(cfg, s, rpc).res.volumes)
    ensures AsMap(Step(cfg, s, rpc).res.volumes) == MapAfter(AsMap(s.res.volumes), Decide(cfg, s, rpc).events)
  {
    StepIsEvents(cfg, s, rpc);
    var es := Decide(cfg, s, rpc).events;
    MapFew(AsMap(s.res.volumes), es);
    if |es| >= 1 {
      EventAsMap(cfg, s, rpc, es[0]);
    }
    if |es| == 2 {
      EventAsMap(cfg, Apply(s, es[0]), rpc, es[1]);
    }
  }

  lemma VolumeRpcFrame(cfg: Config, s: Sys, rpc: Rpc)
    requires !rpc.SnapshotCall?
    ensures Step(cfg, s, rpc).res.snapshots == s.res.snapshots
    ensures Step(cfg, s, rpc).res.groups == s.res.groups
    ensures !Server.Writes(Decide(cfg, s, rpc).events) ==> Step(cfg, s, rpc).res == s.res
  {
    StepIsEvents(cfg, s, rpc);
    var es := Decide(cfg, s, rpc).events;
    if |es| >= 1 {
      assert es[0] in es;
    }
    if |es| == 2 {
      assert es[1] in es;
    }
  }

  /**
   * One RPC of one process, seen in the shared cell, is one step of the map machine. Nothing
   * is assumed about what any process holds in memory.
   */
  lemma ActRefinesMap(c: Cluster, i: nat, rpc: Rpc, reply: Reply, c': Cluster)
    requires Ready(c) && Acts(c, i, rpc, reply, c') && !rpc.SnapshotCall?
    ensures Ready(c')
    ensures Contents(c'.cell).snapshots == Contents(c.cell).snapshots
    ensures Contents(c'.cell).groups == Contents(c.cell).groups
    ensures MapStep(c.procs[i].cfg, AsMap(Contents(c.cell).volumes), Contents(c.cell).snapshots,
                    c.procs[i].mounts, rpc, reply, AsMap(Contents(c'.cell).volumes))
  {
    var cfg, s := c.procs[i].cfg, ViewOf(c, i);
    ReadyView(c, i);
    StepAsMap(cfg, s, rpc);
    VolumeRpcFrame(cfg, s, rpc);
    assert Contents(c'.cell) == Step(cfg, s, rpc).res;
    if c'.cell.None? {
      forall p | p in c'.procs ensures p.memory.groups == [] {
        var j :| 0 <= j < |c'.procs| && c'.procs[j] == p;
        if j != i {
          assert c.procs[j] in c.procs;
        }
      }
    }
    var vs := s.res.volumes;
    var t := Sys(Resources(vs, s.res.snapshots, []), s.mounts);
    OrderIrrelevant(cfg, s, t, rpc);
    assert Wf(vs) && AsMap(vs) == AsMap(Contents(c.cell).volumes);
  }

  // ---- whole traces ----

  datatype Action = Action(proc: nat, rpc: Rpc, reply: Reply)

  ghost predicate ActionTaken(c: Cluster, a: Action, c': Cluster) {
    Acts(c, a.proc, a.rpc, a.reply, c') && !a.rpc.SnapshotCall?
  }

  ghost predicate TakenAt(states: seq<Cluster>, actions: seq<Action>, k: nat)
    requires |states| == |actions| + 1 && k < |actions|
  {
    ActionTaken(states[k], actions[k], states[k + 1])
  }

  ghost predicate Trace(states: seq<Cluster>, actions: seq<Action>) {
    |states| == |actions| + 1 && forall k | 0 <= k < |actions| :: TakenAt(states, actions, k)
  }

  ghost function MapOf(c: Cluster): map<string, Volume> { AsMap(Contents(c.cell).volumes) }

  /** The action, seen in the cell, is a step of the map machine. */
  ghost predicate IsMapStep(c: Cluster, a: Action, snapshots: seq<Snapshot>, c': Cluster) {
    && a.proc < |c.procs| && !a.rpc.SnapshotCall?
    && var p := c.procs[a.proc];
       MapStep(p.cfg, MapOf(c), snapshots, p.mounts, a.rpc, a.reply, MapOf(c'))
  }

  lemma ActionRefinesMap(c: Cluster, a: Action, c': Cluster)
    requires Ready(c) && ActionTaken(c, a, c')
    ensures Ready(c')
    ensures Contents(c'.cell).snapshots == Contents(c.cell).snapshots
    ensures Contents(c'.cell).groups == Contents(c.cell).groups
    ensures IsMapStep(c, a, Contents(c.cell).snapshots, c')
  {
    ActRefinesMap(c, a.proc, a.rpc, a.reply, c');
  }

  /** The snapshots and groups stored in both states are the same. */
  predicate SameRest(c: Cluster, c': Cluster) {
    && Contents(c'.cell).snapshots == Contents(c.cell).snapshots
    && Contents(c'.cell).groups == Contents(c.cell).groups
  }

  lemma StepOfTrace(start: Cluster, c: Cluster, a: Action, c': Cluster)
    requires Ready(c) && SameRest(start, c) && ActionTaken(c, a, c')
    ensures Ready(c') && SameRest(start, c') && IsMapStep(c, a, Contents(start.cell).snapshots, c')
  {
    ActionRefinesMap(c, a, c');
  }

  lemma TakenBefore(states: seq<Cluster>, actions: seq<Action>, k: nat)
    requires Trace(states, actions) && 0 < k < |states|
    ensures ActionTaken(states[k - 1], actions[k - 1], states[k])
  {
    assert TakenAt(states, actions, k - 1);
  }

  /** Every interleaving of whole volume RPCs is a run of the one map machine. */
  lemma {:induction false} TraceRefinesMap(states: seq<Cluster>, actions: seq<Action>, k: nat)
    requires Trace(states, actions) && Ready(states[0]) && k < |states|
    ensures Ready(states[k]) && SameRest(states[0], states[k])
    ensures k > 0 ==> IsMapStep(states[k - 1], actions[k - 1], Contents(states[0].cell).snapshots, states[k])
  {
    if k > 0 {
      TraceRefinesMap(states, actions, k - 1);
      TakenBefore(states, actions, k);
      StepOfTrace(states[0], states[k - 1], actions[k - 1], states[k]);
    }
  }

  /** The one volume that an RPC can change. */
  function Subject(rpc: Rpc): Option<string> {
    match rpc
    case CreateVolume(_, env) => Some(env.uuid)
    case NodePublish(req, _) => Some(req.id)
    case GetCapacity(_) => None
    case SnapshotCall(_, _) => None
    case _ => Some(rpc.id)
  }

  predicate EventAbout(e: Event, id: string) {
    (e.Erase? ==> e.v.volID == id) && (After(e).Some? ==> After(e).value.volID == id)
  }

  lemma OccursAbout(cfg: Config, s: Sys, rpc: Rpc, e: Event)
    requires Occurs(cfg, s, rpc, e) && !rpc.SnapshotCall?
    ensures Subject(rpc).Some? && EventAbout(e, Subject(rpc).value)
  {
  }

  lemma GuardedAbout(cfg: Config, s: Sys, rpc: Rpc, es: seq<Event>)
    requires Guarded(cfg, s, rpc, es) && !rpc.SnapshotCall? && es != []
    ensures Subject(rpc).Some? && forall e | e in es :: EventAbout(e, Subject(rpc).value)
  {
    OccursAbout(cfg, s, rpc, es[0]);
    if |es| == 2 {
      OccursAbout(cfg, Apply(s, es[0]), rpc, es[1]);
    }
  }

  lemma {:induction false} MapAfterFrame(m: map<string, Volume>, es: seq<Event>, subject: string, id: string)
    requires subject != id && forall e | e in es :: EventAbout(e, subject)
    ensures SameAt(MapAfter(m, es), m, id)
  {
    if es != [] {
      assert es[|es| - 1] in es;
      MapAfterFrame(m, es[..|es| - 1], subject, id);
    }
  }

  ghost predicate SameAt(m: map<string, Volume>, n: map<string, Volume>, id: string) {
    (id in m <==> id in n) && (id in n ==> m[id] == n[id])
  }

  lemma MapStepFrame(cfg: Config, m: map<string, Volume>, snapshots: seq<Snapshot>, mounts: map<string, string>,
                     rpc: Rpc, reply: Reply, m': map<string, Volume>, id: string)
    requires MapStep(cfg, m, snapshots, mounts, rpc, reply, m')
    requires !rpc.SnapshotCall? && Subject(rpc) != Some(id)
    ensures SameAt(m', m, id)
  {
    var vs :| Wf(vs) && AsMap(vs) == m
              && var o := Decide(cfg, Sys(Resources(vs, snapshots, []), mounts), rpc);
                 reply == o.reply && m' == MapAfter(m, o.events);
    var s := Sys(Resources(vs, snapshots, []), mounts);
    var es := Decide(cfg, s, rpc).events;
    StepIsEvents(cfg, s, rpc);
    if es != [] {
      GuardedAbout(cfg, s, rpc, es);
      MapAfterFrame(m, es, Subject(rpc).value, id);
    }
  }

  lemma ActionFrame(c: Cluster, a: Action, snapshots: seq<Snapshot>, c': Cluster, id: string)
    requires IsMapStep(c, a, snapshots, c') && Subject(a.rpc) != Some(id)
    ensures SameAt(MapOf(c'), MapOf(c), id)
  {
    var p := c.procs[a.proc];
    MapStepFrame(p.cfg, MapOf(c), snapshots, p.mounts, a.rpc, a.reply, MapOf(c'), id);
  }

  lemma LastFrame(states: seq<Cluster>, actions: seq<Action>, id: string, k: nat)
    requires Trace(states, actions) && Ready(states[0]) && 0 < k < |states|
    requires Subject(actions[k - 1].rpc) != Some(id)
    ensures SameAt(MapOf(states[k]), MapOf(states[k - 1]), id)
  {
    TraceRefinesMap(states, actions, k);
    ActionFrame(states[k - 1], actions[k - 1], Contents(states[0].cell).snapshots, states[k], id);
  }

  lemma SameAtChain(a: map<string, Volume>, b: map<string, Volume>, c: map<string, Volume>, id: string)
    requires SameAt(a, b, id) && SameAt(b, c, id)
    ensures SameAt(a, c, id)
  {
  }

  lemma FrameStep(states: seq<Cluster>, actions: seq<Action>, id: string, k: nat)
    requires Trace(states, actions) && Ready(states[0]) && 0 < k < |states|
    requires Subject(actions[k - 1].rpc) != Some(id) && SameAt(MapOf(states[k - 1]), MapOf(states[0]), id)
    ensures SameAt(MapOf(states[k]), MapOf(states[0]), id)
  {
    LastFrame(states, actions, id, k);
    SameAtChain(MapOf(states[k]), MapOf(states[k - 1]), MapOf(states[0]), id);
  }

  /** No process loses a volume another wrote: only RPCs about a volume change its record. */
  lemma {:induction false} NoLostUpdate(states: seq<Cluster>, actions: seq<Action>, id: string, k: nat)
    requires Trace(states, actions) && Ready(states[0]) && k < |states|
    requires forall j | 0 <= j < k :: Subject(actions[j].rpc) != Some(id)
    ensures SameAt(MapOf(states[k]), MapOf(states[0]), id)
  {
    if k > 0 {
      NoLostUpdate(states, actions, id, k - 1);
      FrameStep(states, actions, id, k);
    }
  }
}
