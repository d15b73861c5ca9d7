/** What each volume RPC does, read off the arguments, the stored record and the store afterwards. */
module Effects {
  import opened Common
  import opened KeyedList
  import opened Store
  import opened Driver

  /** w takes the place of the record with its ID; everything else stays, in its order. */
  ghost predicate Saves(r: Resources, r1: Resources, w: Volume) {
    && |r1.volumes| == |r.volumes| && r1.snapshots == r.snapshots && r1.groups == r.groups
    && forall i | 0 <= i < |r.volumes| ::
         r1.volumes[i] == if r.volumes[i].volID == w.volID then w else r.volumes[i]
  }

  /** The record is gone; everything else stays, in its order. */
  ghost predicate Removes(r: Resources, r1: Resources, v: Volume) {
    && r1.snapshots == r.snapshots && r1.groups == r.groups
    && exists i | 0 <= i < |r.volumes| ::
         r.volumes[i] == v && r1.volumes == r.volumes[..i] + r.volumes[i + 1..]
  }

  lemma PutSaves(r: Resources, v: Volume, w: Volume)
    requires Wf(r.volumes) && v in r.volumes && w.volID == v.volID
    ensures Saves(r, r.(volumes := Put(VolumeID, r.volumes, w)), w)
  {
    var i := Index(VolumeID, r.volumes, w.volID);
    forall j | 0 <= j < |r.volumes| && j != i ensures VolumeID(r.volumes[j]) != VolumeID(r.volumes[i]) {
    }
  }

  lemma DropRemoves(r: Resources, v: Volume)
    requires Wf(r.volumes) && v in r.volumes
    ensures Removes(r, r.(volumes := Drop(VolumeID, r.volumes, v.volID)), v)
  {
    FindIsMember(VolumeID, r.volumes, v);
    var i := Index(VolumeID, r.volumes, v.volID);
    var vs := Drop(VolumeID, r.volumes, v.volID);
    assert r.volumes[i] == v && vs == r.volumes[..i] + r.volumes[i + 1..];
    RemovesAt(r, r.(volumes := vs), v, i);
  }

  lemma RemovesAt(r: Resources, r1: Resources, v: Volume, i: nat)
    requires i < |r.volumes| && r.volumes[i] == v && r1.volumes == r.volumes[..i] + r.volumes[i + 1..]
    requires r1.snapshots == r.snapshots && r1.groups == r.groups
    ensures Removes(r, r1, v)
  {
  }

  ghost predicate Stored(s: Sys, v: Volume, id: string) { Wf(s.res.volumes) && v in s.res.volumes && v.volID == id }

  /** What the one change e, or none, comes to, for the record that the RPC finds. */
  lemma Found(s: Sys, v: Volume, id: string, e: Event)
    requires Stored(s, v, id) && After(e).Some? && After(e).value.volID == id
    ensures Find(VolumeID, s.res.volumes, id) == Some(v)
    ensures ApplyAll(s, [e]) == Apply(s, e) && Saves(s.res, Apply(s, e).res, After(e).value)
    ensures ApplyAll(s, []) == s
  {
    FindIsMember(VolumeID, s.res.volumes, v);
    ApplyOne(s, e);
    PutSaves(s.res, v, After(e).value);
  }

  // ---- controller calls ----

  lemma DeleteEffect(cfg: Config, s: Sys, id: string, env: Env, v: Volume)
    requires Stored(s, v, id) && id != "" && !cfg.ephemeral
    ensures var s1, reply := Step(cfg, s, DeleteVolume(id, env)), Decide(cfg, s, DeleteVolume(id, env)).reply;
            && s1.mounts == s.mounts
            && if env.deleteOk && (cfg.checkLifecycle ==> !v.attached && v.staged == [] && v.published == [])
               then reply == Done && Removes(s.res, s1.res, v)
               else reply == Failed(Internal) && s1 == s
  {
    FindIsMember(VolumeID, s.res.volumes, v);
    ApplyFew(s, []);
    ApplyOne(s, Erase(v));
    DropRemoves(s.res, v);
  }

  /** A volume is attached once, on this node only and within the limit. */
  lemma AttachEffect(cfg: Config, s: Sys, id: string, readOnly: bool, v: Volume)
    requires Stored(s, v, id) && id != "" && cfg.enableAttach && cfg.nodeID != ""
    ensures var rpc := ControllerPublish(id, cfg.nodeID, true, readOnly);
            var s1, reply := Step(cfg, s, rpc), Decide(cfg, s, rpc).reply;
            var room := cfg.attachLimit > 0 ==> AttachCount(s.res.volumes) < cfg.attachLimit;
            && s1.mounts == s.mounts
            && (if !v.attached && room
                then Saves(s.res, s1.res, v.(attached := true, readOnlyAttach := readOnly)) else s1 == s)
            && (reply == Done <==> if v.attached then v.readOnlyAttach == readOnly else room)
            && (reply == Failed(AlreadyExists) <==> v.attached && v.readOnlyAttach != readOnly)
            && (reply == Failed(ResourceExhausted) <==> !v.attached && !room)
  {
    Found(s, v, id, Attach(v, readOnly));
  }

  lemma DetachEffect(cfg: Config, s: Sys, id: string, node: string, v: Volume)
    requires Stored(s, v, id) && id != "" && cfg.enableAttach && (node == "" || node == cfg.nodeID)
    ensures var rpc := ControllerUnpublish(id, node);
            var s1, reply := Step(cfg, s, rpc), Decide(cfg, s, rpc).reply;
            && s1.mounts == s.mounts
            && if cfg.checkLifecycle ==> v.staged == [] && v.published == []
               then reply == Done && Saves(s.res, s1.res, v.(attached := false))
               else reply == Failed(Internal) && s1 == s
  {
    Found(s, v, id, Detach(v));
  }

  /** A volume only grows, and the reply is the size that is then stored. */
  lemma ExpandEffect(cfg: Config, s: Sys, id: string, size: Int64, v: Volume)
    requires Stored(s, v, id) && id != "" && cfg.enableExpansion && size <= cfg.maxVolumeSize
    ensures var s1, reply := Step(cfg, s, Expand(id, Some(size))), Decide(cfg, s, Expand(id, Some(size))).reply;
            && s1.mounts == s.mounts
            && if v.volSize < size then reply == Expanded(size) && Saves(s.res, s1.res, v.(volSize := size))
               else reply == Expanded(v.volSize) && s1 == s
  {
    Found(s, v, id, Resize(v, size));
  }

  // ---- node calls ----

  lemma StageEffect(cfg: Config, s: Sys, id: string, path: string, v: Volume)
    requires Stored(s, v, id) && id != "" && path != ""
    ensures var s1, reply := Step(cfg, s, NodeStage(id, path, true)), Decide(cfg, s, NodeStage(id, path, true)).reply;
            var attached := cfg.enableAttach ==> v.attached;
            && s1.mounts == s.mounts
            && (if attached && v.staged == [] then Saves(s.res, s1.res, v.(staged := [path])) else s1 == s)
            && (reply == Done <==> attached && (v.staged == [] || path in v.staged))
            && (reply == Failed(FailedPrecondition) <==> attached && v.staged != [] && path !in v.staged)
            && (reply == Failed(Internal) <==> !attached)
  {
    Found(s, v, id, Stage(v, path));
    assert [] + [path] == [path];
  }

  lemma UnstageEffect(cfg: Config, s: Sys, id: string, path: string, v: Volume)
    requires Stored(s, v, id) && id != "" && path != ""
    ensures var s1, reply := Step(cfg, s, NodeUnstage(id, path)), Decide(cfg, s, NodeUnstage(id, path)).reply;
            && s1.mounts == s.mounts
            && (if path in v.staged && v.published == []
                then Saves(s.res, s1.res, v.(staged := RemoveFirst(v.staged, path))) else s1 == s)
            && (reply == Done <==> path in v.staged ==> v.published == [])
            && (reply == Failed(Internal) <==> path in v.staged && v.published != [])
  {
    Found(s, v, id, Unstage(v, path));
  }

  function ReleasedVolumes(vs: seq<Volume>, v: Volume, target: string, env: Env): seq<Volume> {
    if !env.removeOk then vs
    else if !v.ephemeral then Put(VolumeID, vs, v.(published := RemoveFirst(v.published, target)))
    else if env.deleteOk then Drop(VolumeID, vs, v.volID)
    else vs
  }

  lemma Released(s: Sys, v: Volume, target: string, env: Env)
    ensures ApplyAll(s, Release(v, target, env).events)
            == if !env.unmountOk then s
               else Sys(s.res.(volumes := ReleasedVolumes(s.res.volumes, v, target, env)), s.mounts - {target})
  {
    var es := Release(v, target, env).events;
    if !env.unmountOk {
      assert es == [];
    } else if env.removeOk && !v.ephemeral {
      ApplyOne(s, Unpublish(v, target));
    } else {
      FreedOnly(s, target);
      if env.removeOk && env.deleteOk {
        FreedAndErased(s, v, target);
      }
    }
  }

  lemma FreedOnly(s: Sys, target: string)
    ensures ApplyAll(s, [Unmount(target)]) == s.(mounts := s.mounts - {target})
  {
    ApplyOne(s, Unmount(target));
  }

  lemma FreedAndErased(s: Sys, v: Volume, target: string)
    ensures ApplyAll(s, [Unmount(target), Erase(v)])
            == Sys(s.res.(volumes := Drop(VolumeID, s.res.volumes, v.volID)), s.mounts - {target})
  {
    ApplyFew(s, [Unmount(target), Erase(v)]);
  }

  /** An unmount that works frees the target in any case; the record changes once the target is also removed. */
  lemma UnpublishEffect(cfg: Config, s: Sys, id: string, target: string, env: Env, v: Volume)
    requires Stored(s, v, id) && id != "" && target != ""
    ensures var rpc := NodeUnpublish(id, target, env);
            var s1, reply := Step(cfg, s, rpc), Decide(cfg, s, rpc).reply;
            var freed := target in v.published && env.unmountOk;
            && s1.mounts == (if freed then s.mounts - {target} else s.mounts)
            && (if freed && env.removeOk && !v.ephemeral
                then Saves(s.res, s1.res, v.(published := RemoveFirst(v.published, target)))
                else if freed && env.removeOk && env.deleteOk then Removes(s.res, s1.res, v)
                else s1.res == s.res)
            && (reply == Done <==> target in v.published ==>
                                     env.unmountOk && env.removeOk && (v.ephemeral ==> env.deleteOk))
            && (reply == Done || reply == Failed(Internal))
  {
    FindIsMember(VolumeID, s.res.volumes, v);
    Released(s, v, target, env);
    ApplyFew(s, []);
    PutSaves(s.res, v, v.(published := RemoveFirst(v.published, target)));
    DropRemoves(s.res, v);
  }

  // ---- publishing ----

  /** The driver or the request says that the volume is ephemeral; the request has the last word. */
  predicate AsksEphemeral(cfg: Config, req: PublishRequest) {
    if req.ephemeralContext == "" then cfg.ephemeral else req.ephemeralContext == "true"
  }

  predicate Complete(req: PublishRequest) {
    req.hasCapability && req.id != "" && req.target != "" && !(req.block && req.mount)
  }

  predicate Mounting(req: PublishRequest) { req.block || req.mount }

  /** A volume with a single writer has no other target. */
  ghost predicate OneTarget(req: PublishRequest, v: Volume) {
    req.singleWriter ==> forall t | t in v.published :: t == req.target
  }

  predicate RightPlace(cfg: Config, req: PublishRequest, v: Volume) {
    !AsksEphemeral(cfg, req) ==> req.staging in v.staged
  }

  predicate RightType(req: PublishRequest, v: Volume) {
    && (req.block ==> v.accessType == BlockAccess)
    && (req.mount ==> v.accessType == MountAccess)
  }

  /** The request may use the record. */
  ghost predicate Welcome(cfg: Config, req: PublishRequest, v: Volume) {
    OneTarget(req, v) && RightPlace(cfg, req, v) && RightType(req, v)
  }

  /** The record with the target appended, on this node. */
  function Published(cfg: Config, req: PublishRequest, v: Volume): Volume {
    v.(nodeID := cfg.nodeID, published := v.published + [req.target])
  }

  predicate Mountable(s: Sys, req: PublishRequest, env: Env) {
    Mounting(req) ==> env.prepareOk && req.target !in s.mounts && env.mountOk
  }

  /** Done, or the code that says which condition fails. */
  ghost predicate RepliesAsAsked(cfg: Config, s: Sys, req: PublishRequest, env: Env, v: Volume, reply: Reply) {
    && (reply == Done <==> Welcome(cfg, req, v)
                           && (Mounting(req) ==> env.prepareOk && (req.target in s.mounts || env.mountOk)))
    && (reply == Failed(FailedPrecondition)
        <==> !OneTarget(req, v) || (!AsksEphemeral(cfg, req) && v.staged == []))
    && (reply == Failed(InvalidArgument)
        <==> OneTarget(req, v) && (AsksEphemeral(cfg, req) || v.staged != [])
             && !(RightPlace(cfg, req, v) && RightType(req, v)))
    && (reply == Failed(Internal)
        <==> Welcome(cfg, req, v) && Mounting(req) && (!env.prepareOk || (req.target !in s.mounts && !env.mountOk)))
  }

  /**
   * A publish of a stored volume: exactly if the record fits and the target can be mounted, the target is mounted for
   * the volume and recorded; otherwise nothing changes, and Done is said only to a target that is already mounted.
   */
  ghost predicate PublishedAsAsked(cfg: Config, s: Sys, req: PublishRequest, env: Env, v: Volume,
                                   s1: Sys, reply: Reply) {
    && (if Welcome(cfg, req, v) && Mountable(s, req, env)
        then Saves(s.res, s1.res, Published(cfg, req, v))
             && s1.mounts == if Mounting(req) then s.mounts[req.target := v.volID] else s.mounts
        else s1 == s)
    && RepliesAsAsked(cfg, s, req, env, v, reply)
  }

  lemma ExistingEvents(cfg: Config, s: Sys, req: PublishRequest, env: Env, v: Volume)
    requires Find(VolumeID, s.res.volumes, req.id) == Some(v) && Complete(req)
    ensures var o := PublishExisting(cfg, s, req, env);
            && o.events == (if Welcome(cfg, req, v) && Mountable(s, req, env)
                            then [Publish(v, req.target, cfg.nodeID, Mounting(req))] else [])
            && RepliesAsAsked(cfg, s, req, env, v, o.reply)
  {
  }

  lemma ExistingEffect(cfg: Config, s: Sys, req: PublishRequest, env: Env, v: Volume)
    requires Stored(s, v, req.id) && Complete(req)
    ensures var o := PublishExisting(cfg, s, req, env);
            PublishedAsAsked(cfg, s, req, env, v, ApplyAll(s, o.events), o.reply)
  {
    FindIsMember(VolumeID, s.res.volumes, v);
    ExistingEvents(cfg, s, req, env, v);
    if Welcome(cfg, req, v) && Mountable(s, req, env) {
      ApplyOne(s, Publish(v, req.target, cfg.nodeID, Mounting(req)));
      PutSaves(s.res, v, Published(cfg, req, v));
    } else {
      ApplyFew(s, []);
    }
  }

  /** Of a volume that is there: of a persistent request, or of an ephemeral one whose name is taken. */
  lemma PublishEffect(cfg: Config, s: Sys, req: PublishRequest, env: Env, v: Volume)
    requires Stored(s, v, req.id) && Complete(req)
    requires AsksEphemeral(cfg, req) ==> exists w | w in s.res.volumes :: w.volName == "ephemeral-" + req.id
    ensures PublishedAsAsked(cfg, s, req, env, v, Step(cfg, s, NodePublish(req, env)),
                             Decide(cfg, s, NodePublish(req, env)).reply)
  {
    FindNone(VolumeName, s.res.volumes, "ephemeral-" + req.id);
    ExistingEffect(cfg, s, req, env, v);
  }

  // ---- admission ----

  /** The requested kind, or the first one, as Go iterates them, with room. */
  ghost predicate KindFor(cfg: Config, vs: seq<Volume>, kind: string, size: Int64, kinds: seq<string>, k: string) {
    if |cfg.capacity| == 0 then kind == "" == k
    else
      && k != "" && Fits(cfg, vs, k, size)
      && if kind != "" then k == kind
         else exists i | 0 <= i < |kinds| :: kinds[i] == k && forall j | 0 <= j < i :: !Fits(cfg, vs, kinds[j], size)
  }

  lemma {:induction false} PickedFirst(cfg: Config, vs: seq<Volume>, size: Int64, kinds: seq<string>) returns (i: nat)
    ensures i <= |kinds| && forall j | 0 <= j < i :: !Fits(cfg, vs, kinds[j], size)
    ensures if i == |kinds| then PickKind(cfg, vs, size, kinds) == ""
            else PickKind(cfg, vs, size, kinds) == kinds[i] && Fits(cfg, vs, kinds[i], size)
  {
    if kinds == [] || Fits(cfg, vs, kinds[0], size) {
      return 0;
    }
    i := PickedFirst(cfg, vs, size, kinds[1..]);
    forall j | 0 <= j < i + 1 ensures !Fits(cfg, vs, kinds[j], size) {
      assert j > 0 ==> kinds[j] == kinds[1..][j - 1];
    }
    i := i + 1;
  }

  /** The kind that a volume is booked under, if any, and why not. */
  lemma AdmitEffect(cfg: Config, vs: seq<Volume>, kind: string, size: Int64, kinds: seq<string>)
    ensures var a := Admit(cfg, vs, kind, size, kinds);
            && (forall k :: a == Admitted(k) <==> size <= cfg.maxVolumeSize && KindFor(cfg, vs, kind, size, kinds, k))
            && (a == Refused(OutOfRange) <==> size > cfg.maxVolumeSize)
            && (a == Refused(InvalidArgument) <==> size <= cfg.maxVolumeSize && |cfg.capacity| == 0 && kind != "")
            && (a.Admitted? || a.code in {OutOfRange, InvalidArgument, ResourceExhausted})
  {
    var i := PickedFirst(cfg, vs, size, kinds);
  }

  /** The record of a new volume. */
  function NewRecord(cfg: Config, id: string, name: string, size: Int64, access: AccessType, ephemeral: bool,
                     kind: string, env: Env): Volume {
    Volume(name, id, size, cfg.stateDir + "/" + id, access, "", "", ephemeral, "", kind, false, false,
           if access == MountAccess then env.node else "", [], [])
  }

  lemma NewVolumeEffect(cfg: Config, vs: seq<Volume>, id: string, name: string, size: Int64, access: AccessType,
                        ephemeral: bool, kind: string, env: Env)
    ensures var made := NewVolume(cfg, vs, id, name, size, access, ephemeral, kind, env);
            && (forall w :: made == Made(w) <==>
                  && env.createOk && size <= cfg.maxVolumeSize
                  && KindFor(cfg, vs, kind, size, env.kinds, w.kind)
                  && w == NewRecord(cfg, id, name, size, access, ephemeral, w.kind, env))
            && (made == NotMade(OutOfRange) <==> size > cfg.maxVolumeSize)
            && (made == NotMade(InvalidArgument) <==> size <= cfg.maxVolumeSize && |cfg.capacity| == 0 && kind != "")
            && (made.Made? || made.code in {OutOfRange, InvalidArgument, ResourceExhausted, Internal})
            && (made == NotMade(Internal) ==> !env.createOk)
  {
    AdmitEffect(cfg, vs, kind, size, env.kinds);
  }

  // ---- creating ----

  /** The content source is there, of the right size and type, and can be copied. */
  predicate Loads(r: Resources, req: CreateRequest, access: AccessType, env: Env) {
    match req.source
    case NoSource => true
    case OtherSource => false
    case FromSnapshot(id) =>
      var snap := Find(SnapshotID, r.snapshots, id);
      snap.Some? && snap.value.readyToUse && snap.value.sizeBytes <= req.size && env.loadOk
    case FromVolume(id) =>
      var src := Find(VolumeID, r.volumes, id);
      src.Some? && src.value.volSize <= req.size && src.value.accessType == access && env.loadOk
  }

  predicate SourceMissing(r: Resources, req: CreateRequest) {
    || (req.source.FromSnapshot? && Find(SnapshotID, r.snapshots, req.source.id).None?)
    || (req.source.FromVolume? && Find(VolumeID, r.volumes, req.source.id).None?)
  }

  /** The source is there and ready, but of an unknown sort, too large, or of the other access type. */
  predicate SourceMisfits(r: Resources, req: CreateRequest, access: AccessType) {
    match req.source
    case NoSource => false
    case OtherSource => true
    case FromSnapshot(id) =>
      var snap := Find(SnapshotID, r.snapshots, id);
      snap.Some? && snap.value.readyToUse && snap.value.sizeBytes > req.size
    case FromVolume(id) =>
      var src := Find(VolumeID, r.volumes, id);
      src.Some? && (src.value.volSize > req.size || src.value.accessType != access)
  }

  predicate AsksForNew(cfg: Config, s: Sys, req: CreateRequest, env: Env) {
    && !cfg.ephemeral && req.name != "" && req.hasCapabilities && !(req.block && req.mount)
    && forall v | v in s.res.volumes :: v.volName != req.name && v.volID != env.uuid
  }

  function AccessOf(req: CreateRequest): AccessType { if req.block then BlockAccess else MountAccess }

  lemma LoadEffect(r: Resources, req: CreateRequest, access: AccessType, env: Env)
    ensures var err := LoadContent(r, req, access, env);
            && (err == None <==> Loads(r, req, access, env))
            && (err == Some(NotFound) <==> SourceMissing(r, req))
            && (err == Some(InvalidArgument) <==> SourceMisfits(r, req, access))
            && (err.Some? ==> err.value in {NotFound, InvalidArgument, Internal})
  {
  }

  lemma CreateOutcome(cfg: Config, s: Sys, req: CreateRequest, env: Env, w: Volume)
    requires Wf(s.res.volumes) && AsksForNew(cfg, s, req, env)
    requires NewVolume(cfg, s.res.volumes, env.uuid, req.name, req.size, AccessOf(req), false, req.kind, env) == Made(w)
    ensures var r, o := s.res.(volumes := s.res.volumes + [w]), DoCreate(cfg, s, req, env);
            match LoadContent(r, req, w.accessType, env)
            case None => o.reply == VolumeReply(w.volID, req.size) && ApplyAll(s, o.events) == Sys(r, s.mounts)
            case Some(code) =>
              o.reply == Failed(code) && ApplyAll(s, o.events) == Sys(if env.deleteOk then s.res else r, s.mounts)
  {
    FindNone(VolumeName, s.res.volumes, req.name);
    NewThenErased(s, w);
    ApplyFew(s, DoCreate(cfg, s, req, env).events);
  }

  lemma NewThenErased(s: Sys, w: Volume)
    requires forall v | v in s.res.volumes :: v.volID != w.volID
    ensures Apply(s, Create(w)) == Sys(s.res.(volumes := s.res.volumes + [w]), s.mounts)
    ensures Apply(Apply(s, Create(w)), Erase(w)) == s
  {
    IndexIs(VolumeID, s.res.volumes, w.volID, |s.res.volumes|);
    PutThenDrop(VolumeID, s.res.volumes, w);
  }

  /**
   * A creation of a free name that is admitted: the new record has the name, size, access type and path of the
   * request and the kind that it names, or else the first kind with room. It stays, and the reply carries the
   * requested size, exactly if the content loads; a record that fails to load stays only if it cannot be removed.
   */
  lemma CreateEffect(cfg: Config, s: Sys, req: CreateRequest, env: Env, k: string)
    requires Wf(s.res.volumes) && AsksForNew(cfg, s, req, env)
    requires env.createOk && req.size <= cfg.maxVolumeSize
    requires KindFor(cfg, s.res.volumes, req.kind, req.size, env.kinds, k)
    ensures var s1, reply := Step(cfg, s, CreateVolume(req, env)), Decide(cfg, s, CreateVolume(req, env)).reply;
            var w := NewRecord(cfg, env.uuid, req.name, req.size, AccessOf(req), false, k, env);
            var r := s.res.(volumes := s.res.volumes + [w]);
            && s1.mounts == s.mounts
            && (if Loads(r, req, AccessOf(req), env) then reply == VolumeReply(env.uuid, req.size) && s1.res == r
                else reply.Failed? && s1.res == if env.deleteOk then s.res else r)
            && (reply == Failed(NotFound) <==> SourceMissing(r, req))
            && (reply == Failed(InvalidArgument) <==> SourceMisfits(r, req, AccessOf(req)))
            && (reply.Failed? ==> reply.code in {NotFound, InvalidArgument, Internal})
  {
    var w := NewRecord(cfg, env.uuid, req.name, req.size, AccessOf(req), false, k, env);
    NewVolumeEffect(cfg, s.res.volumes, env.uuid, req.name, req.size, AccessOf(req), false, req.kind, env);
    CreateOutcome(cfg, s, req, env, w);
    LoadEffect(s.res.(volumes := s.res.volumes + [w]), req, AccessOf(req), env);
  }

  /** One that is not admitted, or whose files cannot be made, changes nothing. */
  lemma CreateRefused(cfg: Config, s: Sys, req: CreateRequest, env: Env)
    requires Wf(s.res.volumes) && AsksForNew(cfg, s, req, env)
    requires env.createOk && req.size <= cfg.maxVolumeSize ==>
               forall k :: !KindFor(cfg, s.res.volumes, req.kind, req.size, env.kinds, k)
    ensures var s1, reply := Step(cfg, s, CreateVolume(req, env)), Decide(cfg, s, CreateVolume(req, env)).reply;
            && s1 == s && reply.Failed?
            && (reply == Failed(OutOfRange) <==> req.size > cfg.maxVolumeSize)
            && (reply == Failed(InvalidArgument)
                <==> req.size <= cfg.maxVolumeSize && |cfg.capacity| == 0 && req.kind != "")
            && (reply.code in {OutOfRange, InvalidArgument, ResourceExhausted, Internal})
            && (reply == Failed(Internal) ==> !env.createOk)
  {
    NewVolumeEffect(cfg, s.res.volumes, env.uuid, req.name, req.size, AccessOf(req), false, req.kind, env);
    FindNone(VolumeName, s.res.volumes, req.name);
    ApplyFew(s, []);
  }

  // ---- ephemeral volumes ----

  const MIB100_IN_BYTES: Int64 := 100 * 1024 * 1024

  /** The new record is appended, or takes the place of one with its ID. */
  ghost predicate Recorded(r: Resources, r1: Resources, w: Volume) {
    if exists v | v in r.volumes :: v.volID == w.volID then Saves(r, r1, w)
    else r1 == r.(volumes := r.volumes + [w])
  }

  lemma PutRecords(r: Resources, w: Volume)
    requires Wf(r.volumes) && forall v | v in r.volumes :: v.volName != w.volName
    ensures var vs := Put(VolumeID, r.volumes, w);
            Wf(vs) && w in vs && Recorded(r, r.(volumes := vs), w)
  {
    PutMembers(VolumeID, r.volumes, w);
    PutKeepsOther(VolumeID, VolumeName, r.volumes, w);
    FindNone(VolumeID, r.volumes, w.volID);
    if v :| v in r.volumes && v.volID == w.volID {
      PutSaves(r, v, w);
    }
  }

  /** The first publish of an ephemeral volume makes its record, of 100 MiB, and then publishes that. */
  lemma EphemeralEffect(cfg: Config, s: Sys, req: PublishRequest, env: Env, k: string)
    requires Wf(s.res.volumes) && Complete(req) && AsksEphemeral(cfg, req)
    requires forall v | v in s.res.volumes :: v.volName != "ephemeral-" + req.id
    requires env.createOk && MIB100_IN_BYTES <= cfg.maxVolumeSize
    requires KindFor(cfg, s.res.volumes, req.kind, MIB100_IN_BYTES, env.kinds, k)
    ensures var w := NewRecord(cfg, req.id, "ephemeral-" + req.id, MIB100_IN_BYTES, MountAccess, true, k, env);
            exists mid: Sys :: && Recorded(s.res, mid.res, w) && mid.mounts == s.mounts
                               && PublishedAsAsked(cfg, mid, req, env, w, Step(cfg, s, NodePublish(req, env)),
                                                   Decide(cfg, s, NodePublish(req, env)).reply)
  {
    var w := NewRecord(cfg, req.id, "ephemeral-" + req.id, MIB100_IN_BYTES, MountAccess, true, k, env);
    var mid := Apply(s, Create(w));
    NewVolumeEffect(cfg, s.res.volumes, req.id, "ephemeral-" + req.id, MIB100_IN_BYTES, MountAccess, true,
                    req.kind, env);
    FindNone(VolumeName, s.res.volumes, "ephemeral-" + req.id);
    PutRecords(s.res, w);
    ExistingEffect(cfg, mid, req, env, w);
    CreatedThenPublished(cfg, s, req, env, w);
  }

  lemma CreatedThenPublished(cfg: Config, s: Sys, req: PublishRequest, env: Env, w: Volume)
    requires Complete(req) && AsksEphemeral(cfg, req) && Find(VolumeName, s.res.volumes, "ephemeral-" + req.id).None?
    requires NewVolume(cfg, s.res.volumes, req.id, "ephemeral-" + req.id, MIB100_IN_BYTES, MountAccess, true,
                       req.kind, env) == Made(w)
    ensures var rest := PublishExisting(cfg, Apply(s, Create(w)), req, env);
            && Step(cfg, s, NodePublish(req, env)) == ApplyAll(Apply(s, Create(w)), rest.events)
            && Decide(cfg, s, NodePublish(req, env)).reply == rest.reply
  {
    var rest := PublishExisting(cfg, Apply(s, Create(w)), req, env);
    assert DoPublish(cfg, s, req, env) == Outcome([Create(w)] + rest.events, rest.reply);
    assert ([Create(w)] + rest.events)[1..] == rest.events;
  }

  lemma EphemeralRefused(cfg: Config, s: Sys, req: PublishRequest, env: Env)
    requires Wf(s.res.volumes) && Complete(req) && AsksEphemeral(cfg, req)
    requires forall v | v in s.res.volumes :: v.volName != "ephemeral-" + req.id
    requires env.createOk && MIB100_IN_BYTES <= cfg.maxVolumeSize ==>
               forall k :: !KindFor(cfg, s.res.volumes, req.kind, MIB100_IN_BYTES, env.kinds, k)
    ensures Step(cfg, s, NodePublish(req, env)) == s && Decide(cfg, s, NodePublish(req, env)).reply.Failed?
  {
    NewVolumeEffect(cfg, s.res.volumes, req.id, "ephemeral-" + req.id, MIB100_IN_BYTES, MountAccess, true,
                    req.kind, env);
    FindNone(VolumeName, s.res.volumes, "ephemeral-" + req.id);
    ApplyFew(s, []);
  }

  // ---- requests that are refused ----

  /** The arguments of the RPC are complete, for the calls that look a volume up by its ID. */
  predicate WellFormed(rpc: Rpc) {
    match rpc
    case CreateVolume(req, _) => req.name != "" && req.hasCapabilities && !(req.block && req.mount)
    case DeleteVolume(id, _) => id != ""
    case ControllerPublish(id, node, cap, _) => id != "" && node != "" && cap
    case ControllerUnpublish(id, _) => id != ""
    case NodeStage(id, path, cap) => id != "" && path != "" && cap
    case NodeUnstage(id, path) => id != "" && path != ""
    case NodePublish(req, _) => Complete(req)
    case NodeUnpublish(id, target, _) => id != "" && target != ""
    case Expand(id, size) => id != "" && size.Some?
    case _ => true
  }

  /** The driver is configured to serve the call at all. */
  predicate Served(cfg: Config, rpc: Rpc) {
    && (rpc.ControllerPublish? || rpc.ControllerUnpublish? ==> cfg.enableAttach)
    && (rpc.Expand? ==> cfg.enableExpansion)
  }

  predicate OtherNode(cfg: Config, rpc: Rpc) {
    || (rpc.ControllerPublish? && rpc.node != cfg.nodeID)
    || (rpc.ControllerUnpublish? && rpc.node != "" && rpc.node != cfg.nodeID)
  }

  predicate TooLarge(cfg: Config, rpc: Rpc) { rpc.Expand? && rpc.size.Some? && rpc.size.value > cfg.maxVolumeSize }

  /** A request that fails before any lookup changes nothing, and the code says why. */
  lemma RefusedEarly(cfg: Config, s: Sys, rpc: Rpc)
    requires !Served(cfg, rpc) || !WellFormed(rpc) || OtherNode(cfg, rpc) || TooLarge(cfg, rpc)
             || (cfg.ephemeral && (rpc.CreateVolume? || rpc.DeleteVolume?))
    ensures Step(cfg, s, rpc) == s
    ensures Decide(cfg, s, rpc).reply
            == Failed(if !Served(cfg, rpc) then Unimplemented
                      else if !WellFormed(rpc) then InvalidArgument
                      else if OtherNode(cfg, rpc) then NotFound
                      else if TooLarge(cfg, rpc) then OutOfRange
                      else InvalidArgument)
  {
    ApplyFew(s, []);
  }

  function IDOf(rpc: Rpc): string
    requires !rpc.CreateVolume? && !rpc.GetCapacity? && !rpc.SnapshotCall?
  {
    if rpc.NodePublish? then rpc.publish.id else rpc.id
  }

  /** A complete request for an unknown volume changes nothing: deleting and detaching are done, the rest fails. */
  lemma UnknownVolume(cfg: Config, s: Sys, rpc: Rpc)
    requires !rpc.CreateVolume? && !rpc.GetCapacity? && !rpc.SnapshotCall?
    requires Served(cfg, rpc) && WellFormed(rpc) && !OtherNode(cfg, rpc)
    requires forall v | v in s.res.volumes :: v.volID != IDOf(rpc)
    requires rpc.DeleteVolume? ==> !cfg.ephemeral
    requires rpc.Expand? ==> rpc.size.value <= cfg.maxVolumeSize
    requires rpc.NodePublish? && AsksEphemeral(cfg, rpc.publish) ==>
               exists w | w in s.res.volumes :: w.volName == "ephemeral-" + rpc.publish.id
    ensures Step(cfg, s, rpc) == s
    ensures Decide(cfg, s, rpc).reply
            == if rpc.DeleteVolume? || rpc.ControllerUnpublish? then Done else Failed(NotFound)
  {
    FindNone(VolumeID, s.res.volumes, IDOf(rpc));
    if rpc.NodePublish? {
      FindNone(VolumeName, s.res.volumes, "ephemeral-" + rpc.publish.id);
    }
    ApplyFew(s, []);
  }
}
