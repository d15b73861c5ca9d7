/** The volume RPC handlers, step by step over the store, against what Driver decides. */
module Server {
  import opened Common
  import opened KeyedList
  import opened Store
  import opened Driver

  // ---- Strings ----

  method Has(strs: seq<string>, str: string) returns (has: bool)
    ensures has <==> str in strs
  {
    for i := 0 to |strs|
      invariant str !in strs[..i]
    {
      if strs[i] == str {
        return true;
      }
    }
    return false;
  }

  method Remove(strs: seq<string>, str: string) returns (r: seq<string>)
    ensures r == RemoveFirst(strs, str)
  {
    for i := 0 to |strs|
      invariant str !in strs[..i]
    {
      if strs[i] == str {
        assert IndexOf(strs, str) == i;
        return strs[..i] + strs[i + 1..];
      }
    }
    return strs;
  }

  /** Does the RPC with these events write the config map? */
  ghost predicate Writes(es: seq<Event>) {
    exists e | e in es :: e.Erase? || After(e).Some?
  }

  /** Is the record of the released volume saved or dropped? */
  predicate Forgotten(v: Volume, env: Env) { env.unmountOk && env.removeOk && (v.ephemeral ==> env.deleteOk) }

  /** What releasing a target comes to. */
  lemma ReleaseEffect(s: Sys, v: Volume, target: string, env: Env)
    ensures var es, vs := Release(v, target, env).events, s.res.volumes;
            && (Writes(es) <==> Forgotten(v, env))
            && ApplyAll(s, es) == if !env.unmountOk then s
               else Sys(s.res.(volumes := if !Forgotten(v, env) then vs
                                          else if v.ephemeral then Drop(VolumeID, vs, v.volID)
                                          else Put(VolumeID, vs, v.(published := RemoveFirst(v.published, target)))),
                        s.mounts - {target})
  {
    var es := Release(v, target, env).events;
    ApplyFew(s, es);
    if !env.unmountOk {
      assert es == [];
    } else if !Forgotten(v, env) {
      assert es == [Unmount(target)];
    } else if v.ephemeral {
      assert es == [Unmount(target), Erase(v)];
      assert Writes(es) by { assert es[1] in es; }
    } else {
      assert es == [Unpublish(v, target)];
      assert Writes(es) by { assert es[0] in es; }
    }
  }

  /** What publishing a target comes to. */
  lemma PublishEffect(s: Sys, v: Volume, target: string, node: string, mounting: bool)
    ensures var es, w := [Publish(v, target, node, mounting)], v.(nodeID := node, published := v.published + [target]);
            && Writes(es)
            && ApplyAll(s, es) == Sys(s.res.(volumes := Put(VolumeID, s.res.volumes, w)),
                                      if mounting then s.mounts[target := v.volID] else s.mounts)
  {
    var e := Publish(v, target, node, mounting);
    assert e in [e];
    ApplyOne(s, e);
  }

  /** A process as an RPC finds or leaves it: its memory, the mounts of its node, and the shared cell. */
  datatype Local = Local(memory: Resources, mounts: map<string, string>, cell: Option<Resources>) {
    function View(): Sys { Sys(Reload(memory, cell), mounts) }
  }

  /** One whole volume RPC of a process. */
  ghost predicate Handled(cfg: Config, p: Local, rpc: Rpc, reply: Reply, p': Local) {
    var o := Decide(cfg, p.View(), rpc);
    && reply == o.reply
    && p'.View() == Step(cfg, p.View(), rpc)
    && p'.cell == (if Writes(o.events) then Some(p'.View().res) else p.cell)
    && p'.memory == if LooksUp(cfg, rpc) then p'.View().res else p.memory
  }

  class HostPath {
    const cfg: Config
    const state: State
    var mounts: map<string, string>

    constructor (cfg: Config, state: State)
      ensures this.cfg == cfg && this.state == state && mounts == map[]
    {
      this.cfg, this.state, this.mounts := cfg, state, map[];
    }

    /** The state an RPC of this process acts on: the shared cell and this node's mounts. */
    ghost function View(): Sys
      reads this, state, state.cm
    {
      Sys(state.Fresh(), mounts)
    }

    /** An RPC that looks something up leaves in memory what the cell holds; any other touches nothing. */
    twostate predicate Synced(looked: bool)
      reads this, state, state.cm
    {
      if looked then state.Memory() == state.Fresh()
      else state.Memory() == old(state.Memory()) && state.cm.data == old(state.cm.data)
    }

    ghost function Here(): Local
      reads this, state, state.cm
    {
      Local(state.Memory(), mounts, state.cm.data)
    }

    /** A volume RPC, carried out by its handler. */
    method Handle(rpc: Rpc) returns (reply: Reply)
      requires !rpc.SnapshotCall?
      modifies this, state, state.cm
      ensures Handled(cfg, old(Here()), rpc, reply, Here())
    {
      match rpc {
        case CreateVolume(req, env) => reply := CreateVolume(req, env);
        case DeleteVolume(id, env) => reply := DeleteVolume(id, env);
        case ControllerPublish(id, node, cap, readOnly) => reply := ControllerPublishVolume(id, node, cap, readOnly);
        case ControllerUnpublish(id, node) => reply := ControllerUnpublishVolume(id, node);
        case NodeStage(id, path, cap) => reply := NodeStageVolume(id, path, cap);
        case NodeUnstage(id, path) => reply := NodeUnstageVolume(id, path);
        case NodePublish(req, env) => reply := NodePublishVolume(req, env);
        case NodeUnpublish(id, target, env) => reply := NodeUnpublishVolume(id, target, env);
        case Expand(id, size) => reply := ControllerExpandVolume(id, size);
        case GetCapacity(kind) => reply := GetCapacity(kind);
      }
    }

    // ---- helpers of hostpath.go ----

    method SumVolumeSizes(kind: string) returns (sum: Int64)
      modifies state
      ensures state.Memory() == old(state.Fresh())
      ensures sum == Wrap64(Used(old(state.Fresh()).volumes, kind))
    {
      sum := 0;
      var vs := state.GetVolumes();
      assert vs[..0] == [];
      for i := 0 to |vs|
        invariant state.Memory() == old(state.Fresh())
        invariant sum == Wrap64(Used(vs[..i], kind))
      {
        assert vs[..i + 1][..i] == vs[..i];
        WrapAdd(Used(vs[..i], kind), SizeOf(kind)(vs[i]));
        if vs[i].kind == kind {
          sum := Wrap64(sum + vs[i].volSize);
        }
      }
      assert vs[..|vs|] == vs;
    }

    method GetAttachCount() returns (count: nat)
      modifies state
      ensures state.Memory() == old(state.Fresh())
      ensures count == AttachCount(old(state.Fresh()).volumes)
    {
      count := 0;
      var vs := state.GetVolumes();
      assert vs[..0] == [];
      for i := 0 to |vs|
        invariant state.Memory() == old(state.Fresh())
        invariant count == AttachCount(vs[..i])
      {
        assert vs[..i + 1][..i] == vs[..i];
        if vs[i].attached {
          count := count + 1;
        }
      }
      assert vs[..|vs|] == vs;
    }

    method HostPathCreateVolume(id: string, name: string, size: Int64, access: AccessType,
                                ephemeral: bool, kind: string, env: Env)
      returns (r: Creation)
      modifies state, state.cm
      ensures r == NewVolume(cfg, old(state.Fresh()).volumes, id, name, size, access, ephemeral, kind, env)
      ensures r.NotMade? ==> state.Fresh() == old(state.Fresh()) && state.cm.data == old(state.cm.data)
      ensures r.NotMade? ==> state.Memory() == old(state.Memory()) || state.Memory() == old(state.Fresh())
      ensures r.Made? ==> state.cm.data == Some(state.Memory())
      ensures r.Made? ==> state.Memory() == old(state.Fresh()).(
                            volumes := Put(VolumeID, old(state.Fresh()).volumes, r.v))
    {
      ghost var vs := state.Fresh().volumes;
      if size > cfg.maxVolumeSize {
        return NotMade(OutOfRange);
      }
      var chosen := kind;
      if |cfg.capacity| > 0 {
        if chosen == "" {
          var i := 0;
          while i < |env.kinds| && chosen == ""
            invariant i <= |env.kinds| && state.Fresh() == old(state.Fresh())
            invariant state.cm.data == old(state.cm.data)
            invariant state.Memory() == old(state.Memory()) || state.Memory() == old(state.Fresh())
            invariant chosen == "" ==>
              PickKind(cfg, vs, size, env.kinds) == PickKind(cfg, vs, size, env.kinds[i..])
            invariant chosen != "" ==> PickKind(cfg, vs, size, env.kinds) == chosen
          {
            var used := SumVolumeSizes(env.kinds[i]);
            if Wrap64(used + size) <= Quota(cfg, env.kinds[i]) {
              chosen := env.kinds[i];
              if chosen == "" {
                // the break of HostPathCreateVolume: a kind named "" ends the search empty-handed
                return NotMade(ResourceExhausted);
              }
            }
            i := i + 1;
          }
        }
        if chosen == "" {
          return NotMade(ResourceExhausted);
        }
        var used := SumVolumeSizes(chosen);
        if Wrap64(used + size) > Quota(cfg, chosen) {
          return NotMade(ResourceExhausted);
        }
      } else if chosen != "" {
        return NotMade(InvalidArgument);
      }
      if !env.createOk {
        return NotMade(Internal);
      }
      var v := Volume(name, id, size, VolumePath(cfg, id), access, "", "", ephemeral, "", chosen,
                      false, false, if access.MountAccess? then env.node else "", [], []);
      state.UpdateVolume(v);
      return Made(v);
    }

    method HostPathDeleteVolume(id: string, env: Env) returns (ok: bool)
      modifies state, state.cm
      ensures var vol := Find(VolumeID, old(state.Fresh()).volumes, id);
              && ok == (vol.None? || env.deleteOk)
              && state.cm.data == (if ok && vol.Some? then Some(state.Memory()) else old(state.cm.data))
      ensures state.Memory() == if ok
                then old(state.Fresh()).(volumes := Drop(VolumeID, old(state.Fresh()).volumes, id))
                else old(state.Fresh())
    {
      var vol := state.GetVolumeByID(id);
      if vol.None? {
        return true;
      }
      if !env.deleteOk {
        return false;
      }
      state.DeleteVolume(id);
      return true;
    }

    // ---- controller RPCs ----

    method HostPathLoad(req: CreateRequest, access: AccessType, env: Env) returns (err: Option<Code>)
      requires state.Memory() == state.Fresh()
      modifies state
      ensures state.Memory() == old(state.Memory())
      ensures err == LoadContent(old(state.Memory()), req, access, env)
    {
      match req.source {
        case NoSource => return None;
        case OtherSource => return Some(InvalidArgument);
        case FromSnapshot(id) =>
          var snap := state.GetSnapshotByID(id);
          if snap.None? { return Some(NotFound); }
          if !snap.value.readyToUse { return Some(Internal); }
          if snap.value.sizeBytes > req.size { return Some(InvalidArgument); }
        case FromVolume(id) =>
          var src := state.GetVolumeByID(id);
          if src.None? { return Some(NotFound); }
          if src.value.volSize > req.size { return Some(InvalidArgument); }
          if src.value.accessType != access { return Some(InvalidArgument); }
      }
      return if env.loadOk then None else Some(Internal);
    }

    /** CreateVolume once the record v has been saved. */
    method PopulateVolume(v: Volume, req: CreateRequest, env: Env) returns (reply: Reply)
      requires state.cm.data == Some(state.Memory())
      requires Find(VolumeID, state.volumes, v.volID) == Some(v) && v.volID == env.uuid
      modifies state, state.cm
      ensures reply == Populate(old(state.Memory()), v, req, env).reply
      ensures View() == if Populate(old(state.Memory()), v, req, env).events == [Create(v)]
                        then old(View()) else Apply(old(View()), Erase(v))
      ensures state.cm.data == Some(state.Memory())
    {
      var err := HostPathLoad(req, v.accessType, env);
      if err.None? {
        return VolumeReply(v.volID, req.size);
      }
      var ok := HostPathDeleteVolume(env.uuid, env);
      return Failed(err.value);
    }

    method CreateVolume(req: CreateRequest, env: Env) returns (reply: Reply)
      modifies state, state.cm
      ensures reply == Decide(cfg, old(View()), Rpc.CreateVolume(req, env)).reply
      ensures View() == Step(cfg, old(View()), Rpc.CreateVolume(req, env))
      ensures Synced(LooksUp(cfg, Rpc.CreateVolume(req, env)))
      ensures state.cm.data == if Writes(DoCreate(cfg, old(View()), req, env).events)
                               then Some(View().res) else old(state.cm.data)
    {
      ghost var s := View();
      if cfg.ephemeral || req.name == "" || !req.hasCapabilities || (req.block && req.mount) {
        return Failed(InvalidArgument);
      }
      var access := if req.block then BlockAccess else MountAccess;
      var ex := state.GetVolumeByName(req.name);
      if ex.Some? {
        reply := CheckExisting(ex.value, req);
        return;
      }
      var made := HostPathCreateVolume(env.uuid, req.name, req.size, access, false, req.kind, env);
      if made.NotMade? {
        return Failed(made.code);
      }
      var v := made.v;
      assert View() == Apply(s, Create(v));
      FindAfterPut(s.res.volumes, v);
      ghost var es := Populate(View().res, v, req, env).events;
      assert es == DoCreate(cfg, s, req, env).events;
      reply := PopulateVolume(v, req, env);
      ApplyFew(s, es);
      assert es[0] in es;
    }

    method CheckExisting(ex: Volume, req: CreateRequest) returns (reply: Reply)
      ensures reply == ExistingReply(ex, req)
      ensures reply.VolumeReply? <==> req.size <= ex.volSize && SourceMatches(ex, req.source)
      ensures reply.VolumeReply? ==> reply.id == ex.volID && reply.bytes == ex.volSize >= req.size
      ensures reply == Failed(InvalidArgument) <==> req.size <= ex.volSize && req.source.OtherSource?
      ensures reply.VolumeReply? || reply == Failed(InvalidArgument) || reply == Failed(AlreadyExists)
    {
      if ex.volSize < req.size {
        return Failed(AlreadyExists);
      }
      match req.source {
        case NoSource =>
        case FromSnapshot(id) =>
          if ex.parentSnapID != "" && ex.parentSnapID != id { return Failed(AlreadyExists); }
        case FromVolume(id) =>
          if ex.parentVolID != id { return Failed(AlreadyExists); }
        case OtherSource => return Failed(InvalidArgument);
      }
      return VolumeReply(ex.volID, ex.volSize);
    }

    method DeleteVolume(id: string, env: Env) returns (reply: Reply)
      modifies state, state.cm
      ensures reply == Decide(cfg, old(View()), Rpc.DeleteVolume(id, env)).reply
      ensures View() == Step(cfg, old(View()), Rpc.DeleteVolume(id, env))
      ensures Synced(LooksUp(cfg, Rpc.DeleteVolume(id, env)))
      ensures state.cm.data == if Writes(DoDelete(cfg, old(View()), id, env).events)
                               then Some(View().res) else old(state.cm.data)
    {
      ghost var s := View();
      if id == "" || cfg.ephemeral {
        return Failed(InvalidArgument);
      }
      var vol := state.GetVolumeByID(id);
      if vol.None? {
        return Done;
      }
      if vol.value.attached || vol.value.published != [] || vol.value.staged != [] {
        if cfg.checkLifecycle {
          return Failed(Internal);
        }
      }
      var ok := HostPathDeleteVolume(id, env);
      if !ok {
        return Failed(Internal);
      }
      assert DoDelete(cfg, s, id, env).events == [Erase(vol.value)];
      ApplyOne(s, Erase(vol.value));
      assert Erase(vol.value) in [Erase(vol.value)];
      return Done;
    }

    method ControllerPublishVolume(id: string, node: string, hasCapability: bool, readOnly: bool)
      returns (reply: Reply)
      modifies state, state.cm
      ensures reply == Decide(cfg, old(View()), ControllerPublish(id, node, hasCapability, readOnly)).reply
      ensures View() == Step(cfg, old(View()), ControllerPublish(id, node, hasCapability, readOnly))
      ensures Synced(LooksUp(cfg, ControllerPublish(id, node, hasCapability, readOnly)))
      ensures state.cm.data == if Writes(Decide(cfg, old(View()),
                                                ControllerPublish(id, node, hasCapability, readOnly)).events)
                               then Some(View().res) else old(state.cm.data)
    {
      ghost var s := View();
      ghost var es := DoControllerPublish(cfg, s, id, node, hasCapability, readOnly).events;
      if !cfg.enableAttach {
        return Failed(Unimplemented);
      }
      if id == "" || node == "" || !hasCapability {
        return Failed(InvalidArgument);
      }
      if node != cfg.nodeID {
        return Failed(NotFound);
      }
      var vol := state.GetVolumeByID(id);
      if vol.None? {
        return Failed(NotFound);
      }
      var v := vol.value;
      if v.attached {
        return if readOnly != v.readOnlyAttach then Failed(AlreadyExists) else Done;
      }
      if cfg.attachLimit > 0 {
        var count := GetAttachCount();
        if count >= cfg.attachLimit {
          return Failed(ResourceExhausted);
        }
      }
      assert es == [Attach(v, readOnly)];
      ApplyOne(s, Attach(v, readOnly));
      assert Attach(v, readOnly) in es;
      state.UpdateVolume(v.(attached := true, readOnlyAttach := readOnly));
      return Done;
    }

    method ControllerUnpublishVolume(id: string, node: string) returns (reply: Reply)
      modifies state, state.cm
      ensures reply == Decide(cfg, old(View()), ControllerUnpublish(id, node)).reply
      ensures View() == Step(cfg, old(View()), ControllerUnpublish(id, node))
      ensures Synced(LooksUp(cfg, ControllerUnpublish(id, node)))
      ensures state.cm.data == if Writes(DoControllerUnpublish(cfg, old(View()), id, node).events)
                               then Some(View().res) else old(state.cm.data)
    {
      ghost var s := View();
      if !cfg.enableAttach {
        return Failed(Unimplemented);
      }
      if id == "" {
        return Failed(InvalidArgument);
      }
      if node != "" && node != cfg.nodeID {
        return Failed(NotFound);
      }
      var vol := state.GetVolumeByID(id);
      if vol.None? {
        return Done;
      }
      var v := vol.value;
      if v.published != [] || v.staged != [] {
        if cfg.checkLifecycle {
          return Failed(Internal);
        }
      }
      assert DoControllerUnpublish(cfg, s, id, node).events == [Detach(v)];
      ApplyOne(s, Detach(v));
      assert Detach(v) in [Detach(v)];
      state.UpdateVolume(v.(attached := false));
      return Done;
    }

    method ControllerExpandVolume(id: string, size: Option<Int64>) returns (reply: Reply)
      modifies state, state.cm
      ensures reply == Decide(cfg, old(View()), Expand(id, size)).reply
      ensures View() == Step(cfg, old(View()), Expand(id, size))
      ensures Synced(LooksUp(cfg, Expand(id, size)))
      ensures state.cm.data == if Writes(DoExpand(cfg, old(View()), id, size).events)
                               then Some(View().res) else old(state.cm.data)
    {
      ghost var s := View();
      if !cfg.enableExpansion {
        return Failed(Unimplemented);
      }
      if id == "" || size.None? {
        return Failed(InvalidArgument);
      }
      if size.value > cfg.maxVolumeSize {
        return Failed(OutOfRange);
      }
      var vol := state.GetVolumeByID(id);
      if vol.None? {
        return Failed(NotFound);
      }
      var v := vol.value;
      if v.volSize < size.value {
        assert DoExpand(cfg, s, id, size).events == [Resize(v, size.value)];
        ApplyOne(s, Resize(v, size.value));
        assert Resize(v, size.value) in [Resize(v, size.value)];
        v := v.(volSize := size.value);
        state.UpdateVolume(v);
      }
      return Expanded(v.volSize);
    }

    method GetCapacity(kind: string) returns (reply: Reply)
      modifies state
      ensures reply == Decide(cfg, old(View()), Rpc.GetCapacity(kind)).reply
      ensures View() == old(View())
      ensures Synced(LooksUp(cfg, Rpc.GetCapacity(kind)))
    {
      var available := cfg.maxVolumeSize;
      if |cfg.capacity| > 0 {
        var used := SumVolumeSizes(kind);
        available := Wrap64(Quota(cfg, kind) - used);
      }
      var maximum := cfg.maxVolumeSize;
      if maximum > available {
        maximum := available;
      }
      return CapacityReply(available, maximum);
    }

    // ---- node RPCs ----

    method NodeStageVolume(id: string, path: string, hasCapability: bool) returns (reply: Reply)
      modifies state, state.cm
      ensures reply == Decide(cfg, old(View()), NodeStage(id, path, hasCapability)).reply
      ensures View() == Step(cfg, old(View()), NodeStage(id, path, hasCapability))
      ensures Synced(LooksUp(cfg, NodeStage(id, path, hasCapability)))
      ensures state.cm.data == if Writes(DoStage(cfg, old(View()), id, path, hasCapability).events)
                               then Some(View().res) else old(state.cm.data)
    {
      ghost var s := View();
      if id == "" || path == "" || !hasCapability {
        return Failed(InvalidArgument);
      }
      var vol := state.GetVolumeByID(id);
      if vol.None? {
        return Failed(NotFound);
      }
      var v := vol.value;
      if cfg.enableAttach && !v.attached {
        return Failed(Internal);
      }
      var has := Has(v.staged, path);
      if has {
        return Done;
      }
      if v.staged != [] {
        return Failed(FailedPrecondition);
      }
      assert DoStage(cfg, s, id, path, hasCapability).events == [Stage(v, path)];
      ApplyOne(s, Stage(v, path));
      assert Stage(v, path) in [Stage(v, path)];
      state.UpdateVolume(v.(staged := v.staged + [path]));
      return Done;
    }

    method NodeUnstageVolume(id: string, path: string) returns (reply: Reply)
      modifies state, state.cm
      ensures reply == Decide(cfg, old(View()), NodeUnstage(id, path)).reply
      ensures View() == Step(cfg, old(View()), NodeUnstage(id, path))
      ensures Synced(LooksUp(cfg, NodeUnstage(id, path)))
      ensures state.cm.data == if Writes(DoUnstage(old(View()), id, path).events)
                               then Some(View().res) else old(state.cm.data)
    {
      ghost var s := View();
      if id == "" || path == "" {
        return Failed(InvalidArgument);
      }
      var vol := state.GetVolumeByID(id);
      if vol.None? {
        return Failed(NotFound);
      }
      var v := vol.value;
      var has := Has(v.staged, path);
      if !has {
        return Done;
      }
      if v.published != [] {
        return Failed(Internal);
      }
      assert DoUnstage(s, id, path).events == [Unstage(v, path)];
      ApplyOne(s, Unstage(v, path));
      assert Unstage(v, path) in [Unstage(v, path)];
      var staged := Remove(v.staged, path);
      state.UpdateVolume(v.(staged := staged));
      return Done;
    }

    method IsMountedElsewhere(v: Volume, target: string) returns (r: bool)
      ensures r == MountedElsewhere(v, target)
    {
      for i := 0 to |v.published|
        invariant forall j | 0 <= j < i :: v.published[j] == target
      {
        if v.published[i] != target {
          assert v.published[i] in v.published;
          return true;
        }
      }
      return false;
    }

    /** NodePublishVolume from the point where the volume is looked up. */
    method PublishFound(req: PublishRequest, env: Env) returns (reply: Reply)
      modifies this, state, state.cm
      ensures reply == PublishExisting(cfg, old(View()), req, env).reply
      ensures View() == ApplyAll(old(View()), PublishExisting(cfg, old(View()), req, env).events)
      ensures state.Memory() == state.Fresh()
      ensures state.cm.data == if Writes(PublishExisting(cfg, old(View()), req, env).events)
                               then Some(View().res) else old(state.cm.data)
    {
      ghost var s := View();
      ghost var es := PublishExisting(cfg, s, req, env).events;
      var vol := state.GetVolumeByID(req.id);
      if vol.None? {
        return Failed(NotFound);
      }
      var v := vol.value;
      if req.singleWriter {
        var elsewhere := IsMountedElsewhere(v, req.target);
        if elsewhere {
          return Failed(FailedPrecondition);
        }
      }
      if !IsEphemeralRequest(cfg, req) {
        if v.staged == [] {
          return Failed(FailedPrecondition);
        }
        var has := Has(v.staged, req.staging);
        if !has {
          return Failed(InvalidArgument);
        }
      }
      var mounting := req.block || req.mount;
      if mounting {
        if v.accessType != (if req.block then BlockAccess else MountAccess) {
          return Failed(InvalidArgument);
        }
        if !env.prepareOk {
          return Failed(Internal);
        }
        if req.target in mounts {
          return Done;
        }
        if !env.mountOk {
          return Failed(Internal);
        }
        mounts := mounts[req.target := v.volID];
      }
      PublishEffect(s, v, req.target, cfg.nodeID, mounting);
      assert es == [Publish(v, req.target, cfg.nodeID, mounting)];
      state.UpdateVolume(v.(nodeID := cfg.nodeID, published := v.published + [req.target]));
      return Done;
    }

    method NodePublishVolume(req: PublishRequest, env: Env) returns (reply: Reply)
      modifies this, state, state.cm
      ensures reply == Decide(cfg, old(View()), NodePublish(req, env)).reply
      ensures View() == Step(cfg, old(View()), NodePublish(req, env))
      ensures Synced(LooksUp(cfg, NodePublish(req, env)))
      ensures state.cm.data == if Writes(DoPublish(cfg, old(View()), req, env).events)
                               then Some(View().res) else old(state.cm.data)
    {
      ghost var s := View();
      if !req.hasCapability || req.id == "" || req.target == "" || (req.block && req.mount) {
        return Failed(InvalidArgument);
      }
      if IsEphemeralRequest(cfg, req) {
        var named := state.GetVolumeByName(EphemeralName(req.id));
        if named.None? {
          var made := HostPathCreateVolume(req.id, EphemeralName(req.id), MIB100, MountAccess, true,
                                           req.kind, env);
          if made.NotMade? {
            return Failed(made.code);
          }
          ghost var mid := View();
          assert mid == Apply(s, Create(made.v));
          ghost var rest := PublishExisting(cfg, mid, req, env).events;
          assert DoPublish(cfg, s, req, env).events == [Create(made.v)] + rest;
          reply := PublishFound(req, env);
          assert ([Create(made.v)] + rest)[1..] == rest;
          assert Create(made.v) in DoPublish(cfg, s, req, env).events;
          return;
        }
      }
      reply := PublishFound(req, env);
    }

    /** NodeUnpublishVolume once the target is known to be published. */
    method ReleaseTarget(v: Volume, target: string, env: Env) returns (reply: Reply)
      requires Find(VolumeID, View().res.volumes, v.volID) == Some(v) && state.Memory() == state.Fresh()
      modifies this, state, state.cm
      ensures reply == Release(v, target, env).reply
      ensures View() == ApplyAll(old(View()), Release(v, target, env).events)
      ensures state.Memory() == state.Fresh()
      ensures state.cm.data == if Writes(Release(v, target, env).events)
                               then Some(View().res) else old(state.cm.data)
    {
      ghost var s := View();
      ReleaseEffect(s, v, target, env);
      if !env.unmountOk {
        return Failed(Internal);
      }
      mounts := mounts - {target};
      if !env.removeOk {
        return Failed(Internal);
      }
      reply := ForgetTarget(v, target, env);
    }

    /** The target is unmounted and removed: delete an ephemeral volume, or forget the target. */
    method ForgetTarget(v: Volume, target: string, env: Env) returns (reply: Reply)
      requires Find(VolumeID, View().res.volumes, v.volID) == Some(v) && state.Memory() == state.Fresh()
      modifies state, state.cm
      ensures reply == if v.ephemeral && !env.deleteOk then Failed(Internal) else Done
      ensures var vs := old(state.volumes);
              state.Memory() == old(state.Memory()).(volumes :=
                if !v.ephemeral then Put(VolumeID, vs, v.(published := RemoveFirst(v.published, target)))
                else if env.deleteOk then Drop(VolumeID, vs, v.volID)
                else vs)
      ensures state.cm.data == if reply.Done? then Some(state.Memory()) else old(state.cm.data)
    {
      if v.ephemeral {
        var ok := HostPathDeleteVolume(v.volID, env);
        if !ok {
          return Failed(Internal);
        }
      } else {
        var published := Remove(v.published, target);
        state.UpdateVolume(v.(published := published));
      }
      return Done;
    }

    method NodeUnpublishVolume(id: string, target: string, env: Env) returns (reply: Reply)
      modifies this, state, state.cm
      ensures reply == Decide(cfg, old(View()), NodeUnpublish(id, target, env)).reply
      ensures View() == Step(cfg, old(View()), NodeUnpublish(id, target, env))
      ensures Synced(LooksUp(cfg, NodeUnpublish(id, target, env)))
      ensures state.cm.data == if Writes(DoUnpublish(old(View()), id, target, env).events)
                               then Some(View().res) else old(state.cm.data)
    {
      if id == "" || target == "" {
        return Failed(InvalidArgument);
      }
      var vol := state.GetVolumeByID(id);
      if vol.None? {
        return Failed(NotFound);
      }
      var has := Has(vol.value.published, target);
      if !has {
        return Done;
      }
      reply := ReleaseTarget(vol.value, target, env);
    }
  }
}
