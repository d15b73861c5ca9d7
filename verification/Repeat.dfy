/** CreateVolume is idempotent as "CreateVolume" of the CSI specification asks, and undoes its failures. */
module Repeat {
  import opened Common
  import opened KeyedList
  import opened Store
  import opened Driver
  import opened Lifecycle

  /** v is the persistent volume that a CreateVolume(name, size) made, perhaps grown since. */
  ghost predicate IsResult(v: Volume, id: string, req: CreateRequest) {
    && v.volID == id && v.volName == req.name && req.size <= v.volSize
    && !v.ephemeral && v.parentVolID == v.parentSnapID == ""
  }

  ghost predicate HasResult(s: Sys, id: string, req: CreateRequest) {
    exists v | v in s.res.volumes :: IsResult(v, id, req)
  }

  /** The RPC does not delete volume id, and IDs that it makes do not clash. */
  ghost predicate Spares(cfg: Config, s: Sys, rpc: Rpc, id: string) {
    && FreshUuid(s, rpc)
    && !(rpc.DeleteVolume? && rpc.id == id)
    && !(rpc.NodePublish? && IsEphemeralRequest(cfg, rpc.publish) && rpc.publish.id == id)
  }

  ghost predicate SparesRun(cfg: Config, s: Sys, rpcs: seq<Rpc>, id: string)
    decreases |rpcs|
  {
    rpcs == [] || (Spares(cfg, s, rpcs[0], id) && SparesRun(cfg, Step(cfg, s, rpcs[0]), rpcs[1..], id))
  }

  /** A save over a result of req is again a result of req. */
  lemma SavedResult(cfg: Config, s: Sys, rpc: Rpc, e: Event, v: Volume, id: string, req: CreateRequest)
    requires Occurs(cfg, s, rpc, e) && After(e).Some? && !e.Create? && e.v == v && IsResult(v, id, req)
    ensures IsResult(After(e).value, id, req)
  {
  }

  lemma SavedOver(s: Sys, e: Event, v: Volume)
    requires Wf(s.res.volumes) && Continues(s, e) && After(e).Some? && !e.Create?
    requires v in s.res.volumes && After(e).value.volID == v.volID
    ensures e.v == v
  {
    FindIsMember(VolumeID, s.res.volumes, v);
  }

  lemma SaveKeepsResult(cfg: Config, s: Sys, rpc: Rpc, e: Event, v: Volume, id: string, req: CreateRequest)
    requires Wf(s.res.volumes) && Occurs(cfg, s, rpc, e) && v in s.res.volumes && IsResult(v, id, req)
    requires After(e).Some? && !(e.Create? && e.v.volID == id)
    ensures HasResult(Apply(s, e), id, req)
  {
    var w, vs := After(e).value, Apply(s, e).res.volumes;
    PutMembers(VolumeID, s.res.volumes, w);
    if w.volID == id {
      OccurringContinues(cfg, s, rpc, e);
      SavedOver(s, e, v);
      SavedResult(cfg, s, rpc, e, v, id, req);
      assert w in vs;
    } else {
      assert v in vs;
    }
  }

  lemma EventKeepsResult(cfg: Config, s: Sys, rpc: Rpc, e: Event, id: string, req: CreateRequest)
    requires Wf(s.res.volumes) && Occurs(cfg, s, rpc, e) && HasResult(s, id, req)
    requires !((e.Create? || e.Erase?) && e.v.volID == id)
    ensures HasResult(Apply(s, e), id, req)
  {
    var v :| v in s.res.volumes && IsResult(v, id, req);
    var vs := Apply(s, e).res.volumes;
    if e.Erase? {
      DropMembers(VolumeID, s.res.volumes, e.v.volID);
      assert v in vs;
    } else if After(e).Some? {
      SaveKeepsResult(cfg, s, rpc, e, v, id, req);
    } else {
      assert v in vs;
    }
  }

  /** An event of a sparing RPC neither erases nor overwrites the volume. */
  lemma SparingEvent(cfg: Config, s: Sys, rpc: Rpc, e: Event, id: string, req: CreateRequest)
    requires Wf(s.res.volumes) && Occurs(cfg, s, rpc, e) && Spares(cfg, s, rpc, id)
    requires HasResult(s, id, req)
    ensures !((e.Create? || e.Erase?) && e.v.volID == id)
  {
    var v :| v in s.res.volumes && IsResult(v, id, req);
    FindIsMember(VolumeID, s.res.volumes, v);
  }

  lemma StepKeepsResult(cfg: Config, s: Sys, rpc: Rpc, id: string, req: CreateRequest)
    requires Wf(s.res.volumes) && HasResult(s, id, req) && Spares(cfg, s, rpc, id)
    ensures HasResult(Step(cfg, s, rpc), id, req)
  {
    StepIsEvents(cfg, s, rpc);
    var es := Decide(cfg, s, rpc).events;
    if |es| >= 1 {
      SparingEvent(cfg, s, rpc, es[0], id, req);
      EventKeepsResult(cfg, s, rpc, es[0], id, req);
      EventKeepsWf(cfg, s, rpc, es[0]);
    }
    if |es| == 2 {
      var next := Apply(s, es[0]);
      if es[0].Unmount? {
        SparingEvent(cfg, next, rpc, es[1], id, req);
      }
      EventKeepsResult(cfg, next, rpc, es[1], id, req);
    }
  }

  lemma {:induction false} RunKeepsResult(cfg: Config, s: Sys, rpcs: seq<Rpc>, id: string, req: CreateRequest)
    requires Wf(s.res.volumes) && HasResult(s, id, req) && SparesRun(cfg, s, rpcs, id)
    ensures HasResult(Run(cfg, s, rpcs), id, req)
    decreases |rpcs|
  {
    if rpcs != [] {
      StepKeepsResult(cfg, s, rpcs[0], id, req);
      StepKeepsWf(cfg, s, rpcs[0]);
      RunKeepsResult(cfg, Step(cfg, s, rpcs[0]), rpcs[1..], id, req);
    }
  }

  /** A successful creation stores its result under the ID it returns. */
  lemma CreateStoresResult(cfg: Config, s: Sys, req: CreateRequest, env: Env)
    requires Wf(s.res.volumes)
    requires DoCreate(cfg, s, req, env).events != [] && DoCreate(cfg, s, req, env).reply.VolumeReply?
    ensures HasResult(Step(cfg, s, CreateVolume(req, env)), DoCreate(cfg, s, req, env).reply.id, req)
  {
    StepIsEvents(cfg, s, CreateVolume(req, env));
    var v := DoCreate(cfg, s, req, env).events[0].v;
    PutMembers(VolumeID, s.res.volumes, v);
    assert IsResult(v, DoCreate(cfg, s, req, env).reply.id, req);
    assert v in Step(cfg, s, CreateVolume(req, env)).res.volumes;
  }

  /**
   * After a creation and any RPCs that spare the volume, the same request again returns the
   * same ID and changes nothing, except that a request to clone a volume is refused: the
   * stored record never carries the source of the clone.
   */
  lemma RepeatedCreate(cfg: Config, s: Sys, req: CreateRequest, env: Env, rpcs: seq<Rpc>, env2: Env)
    requires Wf(s.res.volumes)
    requires DoCreate(cfg, s, req, env).events != [] && DoCreate(cfg, s, req, env).reply.VolumeReply?
    requires SparesRun(cfg, Step(cfg, s, CreateVolume(req, env)), rpcs, DoCreate(cfg, s, req, env).reply.id)
    ensures var first := DoCreate(cfg, s, req, env).reply;
            var now := Run(cfg, Step(cfg, s, CreateVolume(req, env)), rpcs);
            var again := Decide(cfg, now, CreateVolume(req, env2));
            && Step(cfg, now, CreateVolume(req, env2)) == now
            && (again.reply.VolumeReply? <==> !(req.source.FromVolume? && req.source.id != ""))
            && (again.reply.VolumeReply? ==> again.reply.id == first.id && req.size <= again.reply.bytes)
            && (!again.reply.VolumeReply? ==> again.reply == Failed(AlreadyExists))
  {
    var id := DoCreate(cfg, s, req, env).reply.id;
    var s1 := Step(cfg, s, CreateVolume(req, env));
    CreateStoresResult(cfg, s, req, env);
    StepKeepsWf(cfg, s, CreateVolume(req, env));
    RunKeepsResult(cfg, s1, rpcs, id, req);
    RunKeepsUnique(cfg, s1, rpcs);
    var now := Run(cfg, s1, rpcs);
    var v :| v in now.res.volumes && IsResult(v, id, req);
    FindIsMember(VolumeName, now.res.volumes, v);
    assert DoCreate(cfg, now, req, env2) == Outcome([], ExistingReply(v, req));
    ApplyFew(now, []);
  }

  // ---- the content source of a stored volume ----

  ghost predicate NoParents(vs: seq<Volume>) {
    forall v | v in vs :: v.parentVolID == v.parentSnapID == ""
  }

  lemma EventKeepsNoParents(cfg: Config, s: Sys, rpc: Rpc, e: Event)
    requires Wf(s.res.volumes) && NoParents(s.res.volumes) && Occurs(cfg, s, rpc, e)
    ensures NoParents(Apply(s, e).res.volumes)
  {
    if e.Erase? {
      DropMembers(VolumeID, s.res.volumes, e.v.volID);
    } else if After(e).Some? {
      PutMembers(VolumeID, s.res.volumes, After(e).value);
      assert e.Create? || e.v in s.res.volumes;
    }
  }

  /** The parent IDs are set on the record after it has been saved, so in every run no stored record has any. */
  lemma {:induction false} RunKeepsNoParents(cfg: Config, s: Sys, rpcs: seq<Rpc>)
    requires Wf(s.res.volumes) && NoParents(s.res.volumes)
    ensures NoParents(Run(cfg, s, rpcs).res.volumes)
    decreases |rpcs|
  {
    if rpcs != [] {
      StepIsEvents(cfg, s, rpcs[0]);
      StepKeepsWf(cfg, s, rpcs[0]);
      var es := Decide(cfg, s, rpcs[0]).events;
      if |es| >= 1 {
        EventKeepsNoParents(cfg, s, rpcs[0], es[0]);
        EventKeepsWf(cfg, s, rpcs[0], es[0]);
      }
      if |es| == 2 {
        EventKeepsNoParents(cfg, Apply(s, es[0]), rpcs[0], es[1]);
      }
      RunKeepsNoParents(cfg, Step(cfg, s, rpcs[0]), rpcs[1..]);
    }
  }

  /**
   * In every state reached from an empty store, a request for a taken name is answered with that volume exactly if
   * the volume is large enough and the request clones no volume: a different source snapshot is not noticed.
   */
  lemma SourceIsForgotten(cfg: Config, rpcs: seq<Rpc>, req: CreateRequest, env: Env, ex: Volume)
    requires ex in Run(cfg, Sys(NOTHING, map[]), rpcs).res.volumes && ex.volName == req.name
    requires !cfg.ephemeral && req.name != "" && req.hasCapabilities && !(req.block && req.mount)
    ensures var s := Run(cfg, Sys(NOTHING, map[]), rpcs);
            var reply := Decide(cfg, s, CreateVolume(req, env)).reply;
            && (reply == VolumeReply(ex.volID, ex.volSize)
                <==> req.size <= ex.volSize
                     && (req.source.NoSource? || req.source.FromSnapshot? || req.source == FromVolume("")))
            && Step(cfg, s, CreateVolume(req, env)) == s
  {
    var start := Sys(NOTHING, map[]);
    RunKeepsNoParents(cfg, start, rpcs);
    RunKeepsUnique(cfg, start, rpcs);
    var s := Run(cfg, start, rpcs);
    FindIsMember(VolumeName, s.res.volumes, ex);
    assert DoCreate(cfg, s, req, env) == Outcome([], ExistingReply(ex, req));
    ApplyFew(s, []);
  }

  // ---- failed creations ----

  /** The arguments pass and no volume has the name. */
  predicate AsksForNew(cfg: Config, s: Sys, req: CreateRequest) {
    && !cfg.ephemeral && req.name != "" && req.hasCapabilities && !(req.block && req.mount)
    && Find(VolumeName, s.res.volumes, req.name).None?
  }

  /** A new record is admitted and saved, its content cannot be loaded, and removing it again fails. */
  predicate LeftBehind(cfg: Config, s: Sys, req: CreateRequest, env: Env) {
    var access := if req.block then BlockAccess else MountAccess;
    && AsksForNew(cfg, s, req) && !env.deleteOk
    && match NewVolume(cfg, s.res.volumes, env.uuid, req.name, req.size, access, false, req.kind, env)
       case NotMade(_) => false
       case Made(v) => LoadContent(Apply(s, Create(v)).res, req, access, env).Some?
  }

  /** Exactly which requests fail and yet change something: a failed creation is undone unless its cleanup fails. */
  lemma FailedCreateIsUndone(cfg: Config, s: Sys, req: CreateRequest, env: Env)
    requires FreshUuid(s, CreateVolume(req, env))
    ensures Decide(cfg, s, CreateVolume(req, env)).reply.Failed? && Step(cfg, s, CreateVolume(req, env)) != s
            <==> LeftBehind(cfg, s, req, env)
  {
    var access := if req.block then BlockAccess else MountAccess;
    var made := NewVolume(cfg, s.res.volumes, env.uuid, req.name, req.size, access, false, req.kind, env);
    if !AsksForNew(cfg, s, req) || made.NotMade? {
      NothingMade(cfg, s, req, env);
    } else {
      var err := LoadContent(Apply(s, Create(made.v)).res, req, access, env);
      NewOutcome(cfg, s, req, env, made.v, err);
      PutNew(s.res.volumes, made.v);
    }
  }

  lemma NothingMade(cfg: Config, s: Sys, req: CreateRequest, env: Env)
    requires !AsksForNew(cfg, s, req)
             || NewVolume(cfg, s.res.volumes, env.uuid, req.name, req.size,
                          if req.block then BlockAccess else MountAccess, false, req.kind, env).NotMade?
    ensures Step(cfg, s, CreateVolume(req, env)) == s
  {
    ApplyFew(s, DoCreate(cfg, s, req, env).events);
  }

  lemma NewOutcome(cfg: Config, s: Sys, req: CreateRequest, env: Env, v: Volume, err: Option<Code>)
    requires AsksForNew(cfg, s, req)
    requires NewVolume(cfg, s.res.volumes, env.uuid, req.name, req.size,
                       if req.block then BlockAccess else MountAccess, false, req.kind, env) == Made(v)
    requires err == LoadContent(Apply(s, Create(v)).res, req, if req.block then BlockAccess else MountAccess, env)
    ensures v.volID == env.uuid
    ensures Decide(cfg, s, CreateVolume(req, env)).reply.Failed? <==> err.Some?
    ensures Step(cfg, s, CreateVolume(req, env))
            == if err.Some? && env.deleteOk then Apply(Apply(s, Create(v)), Erase(v)) else Apply(s, Create(v))
  {
    ApplyFew(s, DoCreate(cfg, s, req, env).events);
  }

  lemma PutNew(vs: seq<Volume>, v: Volume)
    ensures (forall y | y in vs :: VolumeID(y) != VolumeID(v)) ==>
              Drop(VolumeID, Put(VolumeID, vs, v), v.volID) == vs && Put(VolumeID, vs, v) != vs
    ensures Find(VolumeID, vs, v.volID).None? ==> forall y | y in vs :: VolumeID(y) != VolumeID(v)
  {
    FindNone(VolumeID, vs, v.volID);
    if forall y | y in vs :: VolumeID(y) != VolumeID(v) {
      PutThenDrop(VolumeID, vs, v);
      IndexIs(VolumeID, vs, v.volID, |vs|);
      assert |Put(VolumeID, vs, v)| == |vs| + 1;
    }
  }
}
