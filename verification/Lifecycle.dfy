/**
 * The volume lifecycle of the Container Storage Interface ("Volume Lifecycle"): attached,
 * then staged, then published, kept by every run; and unique IDs and names.
 */
module Lifecycle {
  import opened Common
  import opened KeyedList
  import opened Store
  import opened Driver

  predicate IsEphemeralName(name: string) { EphemeralName("") <= name }

  ghost predicate Ordered(v: Volume) {
    && (v.published != [] ==> v.staged != [])
    && (v.staged != [] ==> v.attached)
    && |v.staged| <= 1
  }

  /** What every stored record satisfies. */
  ghost predicate Proper(v: Volume) {
    if v.ephemeral then v.volName == EphemeralName(v.volID)
    else !IsEphemeralName(v.volName) && Ordered(v)
  }

  ghost predicate Inv(s: Sys) {
    Wf(s.res.volumes) && forall v | v in s.res.volumes :: Proper(v)
  }

  /** CreateVolume names must stay out of the driver's own name space. */
  predicate Allowed(rpc: Rpc) {
    rpc.CreateVolume? ==> !IsEphemeralName(rpc.create.name)
  }

  lemma EphemeralNameInjective(a: string, b: string)
    ensures EphemeralName(a) == EphemeralName(b) ==> a == b
    ensures IsEphemeralName(EphemeralName(a))
  {
    assert EphemeralName(a)[|EphemeralName("")|..] == a;
    assert EphemeralName(b)[|EphemeralName("")|..] == b;
  }

  // ---- unique IDs and names, with no condition at all on the run ----

  /** A saved record keeps its name, or brings one that no record has. */
  lemma SavedName(cfg: Config, s: Sys, rpc: Rpc, e: Event)
    requires Wf(s.res.volumes) && Occurs(cfg, s, rpc, e) && After(e).Some?
    ensures var w := After(e).value;
            forall y | y in s.res.volumes && y.volID != w.volID :: y.volName != w.volName
  {
    var w := After(e).value;
    if e.Create? {
      FindNone(VolumeName, s.res.volumes, w.volName);
    } else {
      assert e.v in s.res.volumes;
    }
  }

  lemma SaveKeepsWf(vs: seq<Volume>, w: Volume)
    requires Wf(vs)
    requires forall y | y in vs && y.volID != w.volID :: y.volName != w.volName
    ensures Wf(Put(VolumeID, vs, w))
  {
    PutMembers(VolumeID, vs, w);
    PutKeepsOther(VolumeID, VolumeName, vs, w);
  }

  lemma EraseKeepsWf(vs: seq<Volume>, id: string)
    requires Wf(vs)
    ensures Wf(Drop(VolumeID, vs, id))
  {
    DropMembers(VolumeID, vs, id);
    DropKeepsOther(VolumeID, VolumeName, vs, id);
  }

  lemma EventKeepsWf(cfg: Config, s: Sys, rpc: Rpc, e: Event)
    requires Wf(s.res.volumes) && Occurs(cfg, s, rpc, e)
    ensures Wf(Apply(s, e).res.volumes)
  {
    if After(e).Some? {
      SavedName(cfg, s, rpc, e);
    }
    NamedKeepsWf(s, e);
  }

  lemma NamedKeepsWf(s: Sys, e: Event)
    requires Wf(s.res.volumes)
    requires After(e).Some? ==>
               forall y | y in s.res.volumes && y.volID != After(e).value.volID :: y.volName != After(e).value.volName
    ensures Wf(Apply(s, e).res.volumes)
  {
    if e.Erase? {
      EraseKeepsWf(s.res.volumes, e.v.volID);
    } else if After(e).Some? {
      SaveKeepsWf(s.res.volumes, After(e).value);
    }
  }

  lemma StepKeepsWf(cfg: Config, s: Sys, rpc: Rpc)
    requires Wf(s.res.volumes)
    ensures Wf(Step(cfg, s, rpc).res.volumes)
  {
    StepIsEvents(cfg, s, rpc);
    var es := Decide(cfg, s, rpc).events;
    if |es| >= 1 {
      EventKeepsWf(cfg, s, rpc, es[0]);
    }
    if |es| == 2 {
      EventKeepsWf(cfg, Apply(s, es[0]), rpc, es[1]);
    }
  }

  /** In every run volume IDs and volume names stay unique. */
  lemma {:induction false} RunKeepsUnique(cfg: Config, s: Sys, rpcs: seq<Rpc>)
    requires Wf(s.res.volumes)
    ensures Wf(Run(cfg, s, rpcs).res.volumes)
    decreases |rpcs|
  {
    if rpcs != [] {
      StepKeepsWf(cfg, s, rpcs[0]);
      RunKeepsUnique(cfg, Step(cfg, s, rpcs[0]), rpcs[1..]);
    }
  }

  // ---- the lifecycle ----

  /** Only a record of an ephemeral volume can be published without being staged. */
  lemma PublishedIsStagedOrEphemeral(cfg: Config, s: Sys, rpc: Rpc, e: Event)
    requires Inv(s) && Occurs(cfg, s, rpc, e) && e.Publish?
    ensures e.v in s.res.volumes && (e.v.ephemeral || e.v.staged != [])
  {
    var vs := s.res.volumes;
    var name := EphemeralName(e.v.volID);
    FindIsMember(VolumeID, vs, e.v);
    if e.v.staged == [] {
      var w := Find(VolumeName, vs, name).value;
      EphemeralNameInjective(w.volID, e.v.volID);
      FindIsMember(VolumeID, vs, w);
    }
  }

  lemma SavedIsProper(cfg: Config, s: Sys, rpc: Rpc, e: Event)
    requires cfg.enableAttach && cfg.checkLifecycle
    requires Inv(s) && Allowed(rpc) && Occurs(cfg, s, rpc, e) && After(e).Some?
    ensures Proper(After(e).value)
  {
    if !e.Create? {
      FindIsMember(VolumeID, s.res.volumes, e.v);
    }
    if e.Publish? {
      PublishedIsStagedOrEphemeral(cfg, s, rpc, e);
    }
  }

  lemma SaveKeepsProper(vs: seq<Volume>, w: Volume)
    requires Wf(vs) && Proper(w) && forall v | v in vs :: Proper(v)
    ensures forall v | v in Put(VolumeID, vs, w) :: Proper(v)
  {
    PutMembers(VolumeID, vs, w);
  }

  lemma EraseKeepsProper(vs: seq<Volume>, id: string)
    requires Wf(vs) && forall v | v in vs :: Proper(v)
    ensures forall v | v in Drop(VolumeID, vs, id) :: Proper(v)
  {
    DropMembers(VolumeID, vs, id);
  }

  lemma EventKeepsInv(cfg: Config, s: Sys, rpc: Rpc, e: Event)
    requires cfg.enableAttach && cfg.checkLifecycle
    requires Inv(s) && Allowed(rpc) && Occurs(cfg, s, rpc, e)
    ensures Inv(Apply(s, e))
  {
    EventKeepsWf(cfg, s, rpc, e);
    if After(e).Some? {
      SavedIsProper(cfg, s, rpc, e);
    }
    ProperStays(s, e);
  }

  lemma ProperStays(s: Sys, e: Event)
    requires Inv(s) && (After(e).Some? ==> Proper(After(e).value))
    ensures forall v | v in Apply(s, e).res.volumes :: Proper(v)
  {
    if e.Erase? {
      EraseKeepsProper(s.res.volumes, e.v.volID);
    } else if After(e).Some? {
      SaveKeepsProper(s.res.volumes, After(e).value);
    }
  }

  lemma StepKeepsInv(cfg: Config, s: Sys, rpc: Rpc)
    requires cfg.enableAttach && cfg.checkLifecycle
    requires Inv(s) && Allowed(rpc)
    ensures Inv(Step(cfg, s, rpc))
  {
    StepIsEvents(cfg, s, rpc);
    var es := Decide(cfg, s, rpc).events;
    if |es| >= 1 {
      EventKeepsInv(cfg, s, rpc, es[0]);
    }
    if |es| == 2 {
      EventKeepsInv(cfg, Apply(s, es[0]), rpc, es[1]);
    }
  }

  /** Published implies staged implies attached, and one staging path, in every run. */
  lemma {:induction false} RunKeepsLifecycle(cfg: Config, s: Sys, rpcs: seq<Rpc>)
    requires cfg.enableAttach && cfg.checkLifecycle
    requires Inv(s)
    requires forall r | r in rpcs :: Allowed(r)
    ensures Inv(Run(cfg, s, rpcs))
    decreases |rpcs|
  {
    if rpcs != [] {
      StepKeepsInv(cfg, s, rpcs[0]);
      RunKeepsLifecycle(cfg, Step(cfg, s, rpcs[0]), rpcs[1..]);
    }
  }

  // ---- exactly what breaks the lifecycle ----

  /** NodePublishVolume gets past its arguments, the access mode, the access type, the OS steps and the mount table. */
  predicate Accepted(s: Sys, v: Volume, req: PublishRequest, env: Env) {
    && req.hasCapability && req.id != "" && req.target != "" && !(req.block && req.mount)
    && !(req.singleWriter && MountedElsewhere(v, req.target))
    && (req.block || req.mount ==>
          && v.accessType == (if req.block then BlockAccess else MountAccess)
          && env.prepareOk && req.target !in s.mounts && env.mountOk)
  }

  /**
   * An ephemeral request for the persistent volume v while it is not staged, and while some volume already has the
   * ephemeral name of v's ID.
   */
  predicate SlipsPast(cfg: Config, s: Sys, v: Volume, rpc: Rpc) {
    && rpc.NodePublish? && rpc.publish.id == v.volID && !v.ephemeral
    && IsEphemeralRequest(cfg, rpc.publish) && Find(VolumeName, s.res.volumes, EphemeralName(v.volID)).Some?
    && v.staged == [] && Accepted(s, v, rpc.publish, rpc.env)
  }

  ghost predicate Slips(cfg: Config, s: Sys, rpc: Rpc) {
    exists v | v in s.res.volumes :: SlipsPast(cfg, s, v, rpc)
  }

  /** Unique IDs and names, and the order for every persistent volume, whatever the names are. */
  ghost predicate InOrder(s: Sys) {
    Wf(s.res.volumes) && forall v | v in s.res.volumes :: v.ephemeral || Ordered(v)
  }

  /** The one event that can break the order. */
  predicate Unstaged(e: Event) { e.Publish? && !e.v.ephemeral && e.v.staged == [] }

  lemma EventKeepsOrderExactly(cfg: Config, s: Sys, rpc: Rpc, e: Event)
    requires cfg.enableAttach && cfg.checkLifecycle
    requires InOrder(s) && Occurs(cfg, s, rpc, e)
    ensures InOrder(Apply(s, e)) <==> !Unstaged(e)
  {
    var vs := s.res.volumes;
    EventKeepsWf(cfg, s, rpc, e);
    if e.Erase? {
      DropMembers(VolumeID, vs, e.v.volID);
    } else if After(e).Some? {
      PutMembers(VolumeID, vs, After(e).value);
      if !e.Create? {
        FindIsMember(VolumeID, vs, e.v);
      }
    }
  }

  /** What is published after a new ephemeral volume was created is that volume. */
  lemma NewIsEphemeral(cfg: Config, s: Sys, req: PublishRequest, env: Env)
    ensures var es := PublishNew(cfg, s, req, env).events;
            |es| <= 2 && (|es| >= 1 ==> es[0].Create?)
            && (|es| == 2 ==> es[0].v.ephemeral && es[1].Publish? && es[1].v == es[0].v)
  {
    var made := NewVolume(cfg, s.res.volumes, req.id, EphemeralName(req.id), MIB100, MountAccess, true, req.kind, env);
    if made.Made? {
      FindAfterPut(s.res.volumes, made.v);
    }
  }

  /** Publishing the volume v that is found: the event is unstaged exactly if the request slips past. */
  lemma FoundSlips(cfg: Config, s: Sys, v: Volume, req: PublishRequest, env: Env)
    requires Find(VolumeID, s.res.volumes, req.id) == Some(v)
    requires IsEphemeralRequest(cfg, req) ==> Find(VolumeName, s.res.volumes, EphemeralName(req.id)).Some?
    requires req.hasCapability && req.id != "" && req.target != "" && !(req.block && req.mount)
    ensures var es := PublishExisting(cfg, s, req, env).events;
            |es| <= 1 && (SlipsPast(cfg, s, v, NodePublish(req, env)) <==> |es| == 1 && Unstaged(es[0]))
  {
  }

  /** A publish as a whole; in an ordered store the volume found is the only one that can slip past. */
  lemma PublishSlips(cfg: Config, s: Sys, req: PublishRequest, env: Env)
    ensures var es, found := DoPublish(cfg, s, req, env).events, Find(VolumeID, s.res.volumes, req.id);
            if found.Some? && SlipsPast(cfg, s, found.value, NodePublish(req, env)) then |es| == 1 && Unstaged(es[0])
            else (|es| >= 1 ==> !Unstaged(es[0])) && (|es| == 2 ==> !Unstaged(es[1]))
  {
    if !req.hasCapability || req.id == "" || req.target == "" || (req.block && req.mount) {
    } else if IsEphemeralRequest(cfg, req) && Find(VolumeName, s.res.volumes, EphemeralName(req.id)).None? {
      NewIsEphemeral(cfg, s, req, env);
    } else if Find(VolumeID, s.res.volumes, req.id).Some? {
      FoundSlips(cfg, s, Find(VolumeID, s.res.volumes, req.id).value, req, env);
    }
  }

  lemma SlipsIsFound(cfg: Config, s: Sys, req: PublishRequest, env: Env)
    requires Wf(s.res.volumes)
    ensures var found := Find(VolumeID, s.res.volumes, req.id);
            Slips(cfg, s, NodePublish(req, env))
            <==> found.Some? && SlipsPast(cfg, s, found.value, NodePublish(req, env))
  {
    var found := Find(VolumeID, s.res.volumes, req.id);
    if found.Some? {
      assert found.value in s.res.volumes;
    }
    if v :| v in s.res.volumes && SlipsPast(cfg, s, v, NodePublish(req, env)) {
      FindIsMember(VolumeID, s.res.volumes, v);
    }
  }

  lemma OthersPublishNothing(cfg: Config, s: Sys, rpc: Rpc)
    requires !rpc.NodePublish?
    ensures var es := Decide(cfg, s, rpc).events;
            (|es| >= 1 ==> !es[0].Publish?) && (|es| == 2 ==> !es[1].Publish?)
  {
    StepIsEvents(cfg, s, rpc);
  }

  /** The events of a request that slips past, and of one that does not. */
  lemma UnstagedIsSlip(cfg: Config, s: Sys, rpc: Rpc)
    requires InOrder(s)
    ensures var es := Decide(cfg, s, rpc).events;
            if Slips(cfg, s, rpc) then |es| == 1 && Unstaged(es[0])
            else (|es| >= 1 ==> !Unstaged(es[0])) && (|es| == 2 ==> !Unstaged(es[1]))
  {
    if rpc.NodePublish? {
      SlipsIsFound(cfg, s, rpc.publish, rpc.env);
      PublishSlips(cfg, s, rpc.publish, rpc.env);
    } else {
      OthersPublishNothing(cfg, s, rpc);
    }
  }

  /** An RPC breaks the order of some persistent volume exactly if it slips past the staging check. */
  lemma StepKeepsOrderExactly(cfg: Config, s: Sys, rpc: Rpc)
    requires cfg.enableAttach && cfg.checkLifecycle && InOrder(s)
    ensures InOrder(Step(cfg, s, rpc)) <==> !Slips(cfg, s, rpc)
  {
    StepIsEvents(cfg, s, rpc);
    UnstagedIsSlip(cfg, s, rpc);
    var es := Decide(cfg, s, rpc).events;
    if |es| >= 1 {
      EventKeepsOrderExactly(cfg, s, rpc, es[0]);
    }
    if |es| == 2 {
      EventKeepsOrderExactly(cfg, Apply(s, es[0]), rpc, es[1]);
    }
  }

  ghost predicate AlwaysInOrder(cfg: Config, s: Sys, rpcs: seq<Rpc>)
    decreases |rpcs|
  {
    InOrder(s) && (rpcs == [] || AlwaysInOrder(cfg, Step(cfg, s, rpcs[0]), rpcs[1..]))
  }

  ghost predicate NeverSlips(cfg: Config, s: Sys, rpcs: seq<Rpc>)
    decreases |rpcs|
  {
    rpcs == [] || (!Slips(cfg, s, rpcs[0]) && NeverSlips(cfg, Step(cfg, s, rpcs[0]), rpcs[1..]))
  }

  /** A run keeps the order in all its states exactly if none of its requests slips past, with no rule on names. */
  lemma {:induction false} RunKeepsOrderExactly(cfg: Config, s: Sys, rpcs: seq<Rpc>)
    requires cfg.enableAttach && cfg.checkLifecycle && InOrder(s)
    ensures AlwaysInOrder(cfg, s, rpcs) <==> NeverSlips(cfg, s, rpcs)
    decreases |rpcs|
  {
    if rpcs != [] {
      StepKeepsOrderExactly(cfg, s, rpcs[0]);
      if !Slips(cfg, s, rpcs[0]) {
        RunKeepsOrderExactly(cfg, Step(cfg, s, rpcs[0]), rpcs[1..]);
      }
    }
  }

  /** CreateVolume names outside the driver's own name space are enough. */
  lemma {:induction false} AllowedNeverSlips(cfg: Config, s: Sys, rpcs: seq<Rpc>)
    requires cfg.enableAttach && cfg.checkLifecycle && Inv(s)
    requires forall r | r in rpcs :: Allowed(r)
    ensures NeverSlips(cfg, s, rpcs)
    decreases |rpcs|
  {
    if rpcs != [] {
      StepKeepsInv(cfg, s, rpcs[0]);
      StepKeepsOrderExactly(cfg, s, rpcs[0]);
      AllowedNeverSlips(cfg, Step(cfg, s, rpcs[0]), rpcs[1..]);
    }
  }

  /**
   * The name rule is needed: a persistent volume whose name is the ephemeral name of another
   * persistent volume lets an ephemeral request publish the other one unstaged.
   */
  lemma EphemeralNameBreaksLifecycle(cfg: Config, s: Sys, v: Volume, w: Volume, req: PublishRequest, env: Env)
    requires s.res.volumes == [v, w] && Wf([v, w]) && v.volID != ""
    requires !v.ephemeral && !w.ephemeral && v.staged == [] && v.published == []
    requires w.volName == EphemeralName(v.volID)
    requires req == PublishRequest(v.volID, "/t", "", true, false, false, "true", false, "")
    ensures Step(cfg, s, NodePublish(req, env)).res.volumes
            == [v.(nodeID := cfg.nodeID, published := ["/t"]), w]
  {
    var e := Publish(v, "/t", cfg.nodeID, false);
    var after := v.(nodeID := cfg.nodeID, published := ["/t"]);
    assert v.published + ["/t"] == ["/t"];
    assert After(e) == Some(after);
    FindIsMember(VolumeID, s.res.volumes, v);
    FindIsMember(VolumeName, s.res.volumes, w);
    assert DoPublish(cfg, s, req, env) == PublishExisting(cfg, s, req, env) == Outcome([e], Done);
    ApplyFew(s, [e]);
    IndexIs(VolumeID, s.res.volumes, v.volID, 0);
    assert Put(VolumeID, [v, w], after) == [v, w][0 := after] == [after, w];
  }

  /** CreateVolume of a name that is free, without a content source, on a driver without pools. */
  lemma CreateAppends(cfg: Config, s: Sys, req: CreateRequest, env: Env)
    requires !cfg.ephemeral && cfg.capacity == map[] && req.size <= cfg.maxVolumeSize
    requires req == CreateRequest(req.name, true, false, true, req.size, "", NoSource) && req.name != "" && env.createOk
    requires forall v | v in s.res.volumes :: v.volName != req.name && v.volID != env.uuid
    ensures Step(cfg, s, CreateVolume(req, env)) == s.(res := s.res.(volumes := s.res.volumes + [
              Volume(req.name, env.uuid, req.size, VolumePath(cfg, env.uuid), MountAccess, "", "", false, "", "",
                     false, false, env.node, [], [])]))
  {
    FindNone(VolumeName, s.res.volumes, req.name);
    FindNone(VolumeID, s.res.volumes, env.uuid);
    var v := Volume(req.name, env.uuid, req.size, VolumePath(cfg, env.uuid), MountAccess, "", "", false, "", "",
                    false, false, env.node, [], []);
    assert DoCreate(cfg, s, req, env).events == [Create(v)];
    ApplyFew(s, [Create(v)]);
  }

  /** From an empty store: a volume, one that takes its ephemeral name, and an ephemeral request for the first. */
  lemma OrderBreaksFromEmpty(cfg: Config, env: Env)
    requires !cfg.ephemeral && cfg.capacity == map[] && 0 <= cfg.maxVolumeSize && env.createOk
    ensures var rpcs := [CreateVolume(CreateRequest("a", true, false, true, 0, "", NoSource), env.(uuid := "1")),
                         CreateVolume(CreateRequest("ephemeral-1", true, false, true, 0, "", NoSource),
                                      env.(uuid := "2")),
                         NodePublish(PublishRequest("1", "/t", "", true, false, false, "true", false, ""), env)];
            InOrder(Sys(NOTHING, map[])) && !InOrder(Run(cfg, Sys(NOTHING, map[]), rpcs))
  {
    var s := Sys(NOTHING, map[]);
    var c1 := CreateVolume(CreateRequest("a", true, false, true, 0, "", NoSource), env.(uuid := "1"));
    var c2 := CreateVolume(CreateRequest("ephemeral-1", true, false, true, 0, "", NoSource), env.(uuid := "2"));
    var publish := NodePublish(PublishRequest("1", "/t", "", true, false, false, "true", false, ""), env);
    CreateAppends(cfg, s, c1.create, c1.env);
    var s1 := Step(cfg, s, c1);
    var v := s1.res.volumes[0];
    assert s1.res.volumes == [v];
    CreateAppends(cfg, s1, c2.create, c2.env);
    var s2 := Step(cfg, s1, c2);
    var w := s2.res.volumes[1];
    assert s2.res.volumes == [v, w];
    EphemeralNameBreaksLifecycle(cfg, s2, v, w, publish.publish, env);
    var s3 := Step(cfg, s2, publish);
    assert !Ordered(s3.res.volumes[0]) && !s3.res.volumes[0].ephemeral;
    assert s3.res.volumes[0] in s3.res.volumes;
    assert Run(cfg, s3, []) == s3;
    assert Run(cfg, s2, [publish]) == s3;
    assert Run(cfg, s1, [c2, publish]) == s3;
  }

  // ---- records in use are not dropped ----

  ghost predicate SameVolume(v: Volume, w: Volume) {
    v.volID == w.volID && v.volName == w.volName && v.ephemeral == w.ephemeral
  }

  ghost predicate Kept(s: Sys, v: Volume) {
    exists w | w in s.res.volumes :: SameVolume(v, w)
  }

  /** Is this request one that creates an ephemeral volume anew under the ID of v? */
  ghost predicate Recreates(cfg: Config, s: Sys, rpc: Rpc, v: Volume) {
    && rpc.NodePublish? && rpc.publish.id == v.volID
    && IsEphemeralRequest(cfg, rpc.publish)
    && Find(VolumeName, s.res.volumes, EphemeralName(v.volID)).None?
  }

  /** A saved record continues one that was stored, unless it is a new one. */
  ghost predicate Continues(s: Sys, e: Event) {
    After(e).Some? && !e.Create? ==> Holds(s, e.v) && SameVolume(e.v, After(e).value)
  }

  lemma OccurringContinues(cfg: Config, s: Sys, rpc: Rpc, e: Event)
    requires Occurs(cfg, s, rpc, e)
    ensures Continues(s, e)
  {
  }

  lemma EventKeepsRecord(s: Sys, e: Event, v: Volume)
    requires Wf(s.res.volumes) && Continues(s, e) && Kept(s, v)
    requires !((e.Erase? || e.Create?) && e.v.volID == v.volID)
    ensures Kept(Apply(s, e), v)
  {
    var w :| w in s.res.volumes && SameVolume(v, w);
    var vs := Apply(s, e).res.volumes;
    if e.Erase? {
      DropMembers(VolumeID, s.res.volumes, e.v.volID);
      assert w in vs;
    } else if After(e).Some? {
      var x := After(e).value;
      PutMembers(VolumeID, s.res.volumes, x);
      if x.volID == v.volID {
        FindIsMember(VolumeID, s.res.volumes, w);
        assert x in vs && SameVolume(v, x);
      } else {
        assert w in vs;
      }
    } else {
      assert w in vs;
    }
  }

  ghost predicate FreshUuid(s: Sys, rpc: Rpc) {
    rpc.CreateVolume? ==> forall v | v in s.res.volumes :: v.volID != rpc.env.uuid
  }

  /** The two kinds of call that do drop a record in use. */
  ghost predicate MayDrop(cfg: Config, s: Sys, rpc: Rpc, v: Volume) {
    (rpc.NodeUnpublish? && rpc.id == v.volID && v.ephemeral) || Recreates(cfg, s, rpc, v)
  }

  lemma DroppingEvent(cfg: Config, s: Sys, rpc: Rpc, e: Event, v: Volume)
    requires cfg.checkLifecycle && Wf(s.res.volumes) && FreshUuid(s, rpc)
    requires Occurs(cfg, s, rpc, e) && v in s.res.volumes && InUse(v)
    requires (e.Erase? || e.Create?) && e.v.volID == v.volID
    ensures MayDrop(cfg, s, rpc, v)
  {
    FindIsMember(VolumeID, s.res.volumes, v);
  }

  /** No RPC but an ephemeral unpublish or re-create drops a record still in use. */
  lemma InUseIsKept(cfg: Config, s: Sys, rpc: Rpc, v: Volume)
    requires cfg.checkLifecycle
    requires Wf(s.res.volumes) && FreshUuid(s, rpc)
    requires v in s.res.volumes && InUse(v)
    ensures Kept(Step(cfg, s, rpc), v) || MayDrop(cfg, s, rpc, v)
  {
    if MayDrop(cfg, s, rpc, v) {
      return;
    }
    StepIsEvents(cfg, s, rpc);
    var es := Decide(cfg, s, rpc).events;
    assert Kept(s, v) by { assert SameVolume(v, v); }
    if |es| >= 1 {
      if (es[0].Erase? || es[0].Create?) && es[0].v.volID == v.volID {
        DroppingEvent(cfg, s, rpc, es[0], v);
      }
      OccurringContinues(cfg, s, rpc, es[0]);
      EventKeepsRecord(s, es[0], v);
      EventKeepsWf(cfg, s, rpc, es[0]);
    }
    if |es| == 2 {
      var next := Apply(s, es[0]);
      if es[0].Unmount? && es[1].v.volID == v.volID {
        assert next.res == s.res;
        DroppingEvent(cfg, next, rpc, es[1], v);
      }
      OccurringContinues(cfg, next, rpc, es[1]);
      EventKeepsRecord(next, es[1], v);
    }
  }
}
