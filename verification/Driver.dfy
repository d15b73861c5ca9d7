/**
 * What every volume RPC decides: the store and mount changes it makes, in order, and its
 * reply. Each function follows the branches of one RPC handler.
 */
module Driver {
  import opened Common
  import opened KeyedList
  import opened Store

  datatype Code =
    | InvalidArgument | OutOfRange | ResourceExhausted | AlreadyExists
    | NotFound | FailedPrecondition | Unimplemented | Internal | Aborted

  datatype Config = Config(
    nodeID: string, stateDir: string, maxVolumeSize: Int64, attachLimit: Int64,
    capacity: map<string, Int64>, ephemeral: bool, enableAttach: bool,
    enableExpansion: bool, checkLifecycle: bool)

  /** Volumes, snapshots and groups, and the node's mount table (target path to volume ID). */
  datatype Sys = Sys(res: Resources, mounts: map<string, string>)

  /**
   * What the environment supplies to one call: a new UUID, the order in which a map is
   * iterated, the node picked by the job, and whether each OS step succeeds.
   */
  datatype Env = Env(
    uuid: string, kinds: seq<string>, node: string, createOk: bool, loadOk: bool,
    deleteOk: bool, prepareOk: bool, mountOk: bool, unmountOk: bool, removeOk: bool)

  datatype Source = NoSource | FromSnapshot(id: string) | FromVolume(id: string) | OtherSource

  datatype CreateRequest = CreateRequest(
    name: string, hasCapabilities: bool, block: bool, mount: bool, size: Int64,
    kind: string, source: Source)

  datatype PublishRequest = PublishRequest(
    id: string, target: string, staging: string, hasCapability: bool, block: bool,
    mount: bool, ephemeralContext: string, singleWriter: bool, kind: string)

  datatype Rpc =
    | CreateVolume(create: CreateRequest, env: Env)
    | DeleteVolume(id: string, env: Env)
    | ControllerPublish(id: string, node: string, hasCapability: bool, readOnly: bool)
    | ControllerUnpublish(id: string, node: string)
    | NodeStage(id: string, path: string, hasCapability: bool)
    | NodeUnstage(id: string, path: string)
    | NodePublish(publish: PublishRequest, env: Env)
    | NodeUnpublish(id: string, target: string, env: Env)
    | Expand(id: string, size: Option<Int64>)
    | GetCapacity(kind: string)
      // a snapshot or group call of a process in step (GroupInvariants.OpIsSnapshotCall): the volumes stay
    | SnapshotCall(snapshots: seq<Snapshot>, groups: seq<GroupSnapshot>)

  datatype Reply =
    | Done
    | VolumeReply(id: string, bytes: Int64)
    | Expanded(bytes: Int64)
    | CapacityReply(available: Int64, maximum: Int64)
    | Failed(code: Code)

  /** One change of the store or of the mount table; v is the record before the change. */
  datatype Event =
    | Create(v: Volume)
    | Attach(v: Volume, readOnly: bool)
    | Detach(v: Volume)
    | Stage(v: Volume, path: string)
    | Unstage(v: Volume, path: string)
    | Publish(v: Volume, target: string, nodeID: string, mounts: bool)
    | Unpublish(v: Volume, target: string)
    | Unmount(target: string)
    | Resize(v: Volume, size: Int64)
    | Erase(v: Volume)
    | Replace(snapshots: seq<Snapshot>, groups: seq<GroupSnapshot>)

  datatype Outcome = Outcome(events: seq<Event>, reply: Reply)

  function Fail(code: Code): Outcome { Outcome([], Failed(code)) }

  // ---- what an event does ----

  /** The record that an event saves, for the events that save one. */
  function After(e: Event): Option<Volume> {
    match e
    case Create(v) => Some(v)
    case Attach(v, ro) => Some(v.(attached := true, readOnlyAttach := ro))
    case Detach(v) => Some(v.(attached := false))
    case Stage(v, p) => Some(v.(staged := v.staged + [p]))
    case Unstage(v, p) => Some(v.(staged := RemoveFirst(v.staged, p)))
    case Publish(v, t, n, _) => Some(v.(nodeID := n, published := v.published + [t]))
    case Unpublish(v, t) => Some(v.(published := RemoveFirst(v.published, t)))
    case Resize(v, size) => Some(v.(volSize := size))
    case _ => None
  }

  function ApplyToVolumes(vs: seq<Volume>, e: Event): seq<Volume> {
    if e.Erase? then Drop(VolumeID, vs, e.v.volID)
    else match After(e)
      case Some(v) => Put(VolumeID, vs, v)
      case None => vs
  }

  function ApplyToMounts(m: map<string, string>, e: Event): map<string, string> {
    match e
    case Publish(v, t, _, true) => m[t := v.volID]
    case Unpublish(_, t) => m - {t}
    case Unmount(t) => m - {t}
    case _ => m
  }

  function Apply(s: Sys, e: Event): Sys {
    var vs := ApplyToVolumes(s.res.volumes, e);
    var res := if e.Replace? then Resources(vs, e.snapshots, e.groups)
               else s.res.(volumes := vs);
    Sys(res, ApplyToMounts(s.mounts, e))
  }

  function ApplyAll(s: Sys, es: seq<Event>): Sys
    decreases |es|
  {
    if es == [] then s else ApplyAll(Apply(s, es[0]), es[1..])
  }

  // ---- admission of a new volume ----

  const MIB100: Int64 := 104857600

  function SizeOf(kind: string): Volume -> int {
    (v: Volume) => if v.kind == kind then v.volSize else 0
  }

  /** Exact number of bytes that volumes of one kind take. */
  function Used(vs: seq<Volume>, kind: string): int { Sum(SizeOf(kind), vs) }

  function AttachedOne(v: Volume): int { if v.attached then 1 else 0 }

  function AttachCount(vs: seq<Volume>): int { Sum(AttachedOne, vs) }

  /** The configured pool of a kind; a missing map entry reads as zero. */
  function Quota(cfg: Config, kind: string): Int64 {
    if kind in cfg.capacity then cfg.capacity[kind] else 0
  }

  /** The test of HostPathCreateVolume, used + size <= capacity, in int64 arithmetic. */
  predicate Fits(cfg: Config, vs: seq<Volume>, kind: string, size: Int64) {
    Wrap64(Wrap64(Used(vs, kind)) + size) <= Quota(cfg, kind)
  }

  /** The first kind, in iteration order, with room; "" when there is none. */
  function PickKind(cfg: Config, vs: seq<Volume>, size: Int64, kinds: seq<string>): string {
    if kinds == [] then ""
    else if Fits(cfg, vs, kinds[0], size) then kinds[0]
    else PickKind(cfg, vs, size, kinds[1..])
  }

  datatype Admission = Admitted(kind: string) | Refused(code: Code)

  function Admit(cfg: Config, vs: seq<Volume>, kind: string, size: Int64, kinds: seq<string>): Admission {
    if size > cfg.maxVolumeSize then Refused(OutOfRange)
    else if |cfg.capacity| > 0 then
      var k := if kind == "" then PickKind(cfg, vs, size, kinds) else kind;
      if k == "" then Refused(ResourceExhausted)
      else if !Fits(cfg, vs, k, size) then Refused(ResourceExhausted)
      else Admitted(k)
    else if kind != "" then Refused(InvalidArgument)
    else Admitted("")
  }

  function VolumePath(cfg: Config, id: string): string { cfg.stateDir + "/" + id }

  datatype Creation = Made(v: Volume) | NotMade(code: Code)

  /** HostPathCreateVolume: the record that is saved, or the error. */
  function NewVolume(cfg: Config, vs: seq<Volume>, id: string, name: string, size: Int64,
                     access: AccessType, ephemeral: bool, kind: string, env: Env): Creation {
    match Admit(cfg, vs, kind, size, env.kinds)
    case Refused(code) => NotMade(code)
    case Admitted(k) =>
      if !env.createOk then NotMade(Internal)
      else Made(Volume(name, id, size, VolumePath(cfg, id), access, "", "", ephemeral, "", k,
                       false, false, if access.MountAccess? then env.node else "", [], []))
  }

  // ---- controller calls ----

  /** Can the content source be copied into a new volume of this size and access type? */
  function LoadContent(res: Resources, req: CreateRequest, access: AccessType, env: Env): Option<Code> {
    match req.source
    case NoSource => None
    case OtherSource => Some(InvalidArgument)
    case FromSnapshot(id) =>
      (match Find(SnapshotID, res.snapshots, id)
       case None => Some(NotFound)
       case Some(snap) =>
         if !snap.readyToUse then Some(Internal)
         else if snap.sizeBytes > req.size then Some(InvalidArgument)
         else if env.loadOk then None else Some(Internal))
    case FromVolume(id) =>
      (match Find(VolumeID, res.volumes, id)
       case None => Some(NotFound)
       case Some(src) =>
         if src.volSize > req.size then Some(InvalidArgument)
         else if src.accessType != access then Some(InvalidArgument)
         else if env.loadOk then None else Some(Internal))
  }

  /** Reply to a CreateVolume whose name is taken by ex. */
  function ExistingReply(ex: Volume, req: CreateRequest): Reply {
    if ex.volSize < req.size then Failed(AlreadyExists)
    else match req.source
      case NoSource => VolumeReply(ex.volID, ex.volSize)
      case FromSnapshot(id) =>
        if ex.parentSnapID != "" && ex.parentSnapID != id then Failed(AlreadyExists)
        else VolumeReply(ex.volID, ex.volSize)
      case FromVolume(id) =>
        if ex.parentVolID != id then Failed(AlreadyExists)
        else VolumeReply(ex.volID, ex.volSize)
      case OtherSource => Failed(InvalidArgument)
  }

  /** Does the record name the content source of the request? A snapshot also matches a record without one. */
  predicate SourceMatches(ex: Volume, source: Source) {
    match source
    case NoSource => true
    case FromSnapshot(id) => ex.parentSnapID in {"", id}
    case FromVolume(id) => ex.parentVolID == id
    case OtherSource => false
  }

  /** After the record v is saved: fill the volume, or remove it again. */
  function Populate(res: Resources, v: Volume, req: CreateRequest, env: Env): Outcome {
    match LoadContent(res, req, v.accessType, env)
    case None => Outcome([Create(v)], VolumeReply(v.volID, req.size))
    case Some(code) =>
      if env.deleteOk then Outcome([Create(v), Erase(v)], Failed(code))
      else Outcome([Create(v)], Failed(code))
  }

  /** CreateVolume for a name that no volume has. */
  function CreateNew(cfg: Config, s: Sys, req: CreateRequest, env: Env): Outcome {
    var access := if req.block then BlockAccess else MountAccess;
    match NewVolume(cfg, s.res.volumes, env.uuid, req.name, req.size, access, false, req.kind, env)
    case NotMade(code) => Fail(code)
    case Made(v) => Populate(Apply(s, Create(v)).res, v, req, env)
  }

  function DoCreate(cfg: Config, s: Sys, req: CreateRequest, env: Env): Outcome {
    if cfg.ephemeral then Fail(InvalidArgument)
    else if req.name == "" || !req.hasCapabilities then Fail(InvalidArgument)
    else if req.block && req.mount then Fail(InvalidArgument)
    else match Find(VolumeName, s.res.volumes, req.name)
      case Some(ex) => Outcome([], ExistingReply(ex, req))
      case None => CreateNew(cfg, s, req, env)
  }

  predicate InUse(v: Volume) { v.attached || v.published != [] || v.staged != [] }

  function DoDelete(cfg: Config, s: Sys, id: string, env: Env): Outcome {
    if id == "" then Fail(InvalidArgument)
    else if cfg.ephemeral then Fail(InvalidArgument)
    else match Find(VolumeID, s.res.volumes, id)
      case None => Outcome([], Done)
      case Some(v) =>
        if InUse(v) && cfg.checkLifecycle then Fail(Internal)
        else if !env.deleteOk then Fail(Internal)
        else Outcome([Erase(v)], Done)
  }

  function DoControllerPublish(cfg: Config, s: Sys, id: string, node: string,
                               hasCapability: bool, readOnly: bool): Outcome {
    if !cfg.enableAttach then Fail(Unimplemented)
    else if id == "" || node == "" || !hasCapability then Fail(InvalidArgument)
    else if node != cfg.nodeID then Fail(NotFound)
    else match Find(VolumeID, s.res.volumes, id)
      case None => Fail(NotFound)
      case Some(v) =>
        if v.attached then
          if readOnly != v.readOnlyAttach then Fail(AlreadyExists) else Outcome([], Done)
        else if cfg.attachLimit > 0 && AttachCount(s.res.volumes) >= cfg.attachLimit then
          Fail(ResourceExhausted)
        else Outcome([Attach(v, readOnly)], Done)
  }

  function DoControllerUnpublish(cfg: Config, s: Sys, id: string, node: string): Outcome {
    if !cfg.enableAttach then Fail(Unimplemented)
    else if id == "" then Fail(InvalidArgument)
    else if node != "" && node != cfg.nodeID then Fail(NotFound)
    else match Find(VolumeID, s.res.volumes, id)
      case None => Outcome([], Done)
      case Some(v) =>
        if (v.published != [] || v.staged != []) && cfg.checkLifecycle then Fail(Internal)
        else Outcome([Detach(v)], Done)
  }

  function DoExpand(cfg: Config, s: Sys, id: string, size: Option<Int64>): Outcome {
    if !cfg.enableExpansion then Fail(Unimplemented)
    else if id == "" || size.None? then Fail(InvalidArgument)
    else if size.value > cfg.maxVolumeSize then Fail(OutOfRange)
    else match Find(VolumeID, s.res.volumes, id)
      case None => Fail(NotFound)
      case Some(v) =>
        if v.volSize < size.value then Outcome([Resize(v, size.value)], Expanded(size.value))
        else Outcome([], Expanded(v.volSize))
  }

  function DoGetCapacity(cfg: Config, s: Sys, kind: string): Outcome {
    var available: Int64 := if |cfg.capacity| > 0
                            then Wrap64(Quota(cfg, kind) - Wrap64(Used(s.res.volumes, kind)))
                            else cfg.maxVolumeSize;
    Outcome([], CapacityReply(available,
                              if cfg.maxVolumeSize > available then available else cfg.maxVolumeSize))
  }

  // ---- node calls ----

  function DoStage(cfg: Config, s: Sys, id: string, path: string, hasCapability: bool): Outcome {
    if id == "" || path == "" || !hasCapability then Fail(InvalidArgument)
    else match Find(VolumeID, s.res.volumes, id)
      case None => Fail(NotFound)
      case Some(v) =>
        if cfg.enableAttach && !v.attached then Fail(Internal)
        else if path in v.staged then Outcome([], Done)
        else if v.staged != [] then Fail(FailedPrecondition)
        else Outcome([Stage(v, path)], Done)
  }

  function DoUnstage(s: Sys, id: string, path: string): Outcome {
    if id == "" || path == "" then Fail(InvalidArgument)
    else match Find(VolumeID, s.res.volumes, id)
      case None => Fail(NotFound)
      case Some(v) =>
        if path !in v.staged then Outcome([], Done)
        else if v.published != [] then Fail(Internal)
        else Outcome([Unstage(v, path)], Done)
  }

  predicate IsEphemeralRequest(cfg: Config, req: PublishRequest) {
    req.ephemeralContext == "true" || (req.ephemeralContext == "" && cfg.ephemeral)
  }

  function EphemeralName(id: string): string { "ephemeral-" + id }

  predicate MountedElsewhere(v: Volume, target: string) {
    exists t | t in v.published :: t != target
  }

  /** NodePublishVolume once an ephemeral volume has been created if needed. */
  function PublishExisting(cfg: Config, s: Sys, req: PublishRequest, env: Env): Outcome {
    match Find(VolumeID, s.res.volumes, req.id)
    case None => Fail(NotFound)
    case Some(v) =>
      if req.singleWriter && MountedElsewhere(v, req.target) then Fail(FailedPrecondition)
      else if !IsEphemeralRequest(cfg, req) && v.staged == [] then Fail(FailedPrecondition)
      else if !IsEphemeralRequest(cfg, req) && req.staging !in v.staged then Fail(InvalidArgument)
      else if req.block || req.mount then
        if v.accessType != (if req.block then BlockAccess else MountAccess) then Fail(InvalidArgument)
        else if !env.prepareOk then Fail(Internal)
        else if req.target in s.mounts then Outcome([], Done)
        else if !env.mountOk then Fail(Internal)
        else Outcome([Publish(v, req.target, cfg.nodeID, true)], Done)
      else Outcome([Publish(v, req.target, cfg.nodeID, false)], Done)
  }

  /** NodePublishVolume of an ephemeral volume that does not exist yet. */
  function PublishNew(cfg: Config, s: Sys, req: PublishRequest, env: Env): Outcome {
    match NewVolume(cfg, s.res.volumes, req.id, EphemeralName(req.id), MIB100, MountAccess, true,
                    req.kind, env)
    case NotMade(code) => Fail(code)
    case Made(v) =>
      var rest := PublishExisting(cfg, Apply(s, Create(v)), req, env);
      Outcome([Create(v)] + rest.events, rest.reply)
  }

  function DoPublish(cfg: Config, s: Sys, req: PublishRequest, env: Env): Outcome {
    if !req.hasCapability || req.id == "" || req.target == "" then Fail(InvalidArgument)
    else if req.block && req.mount then Fail(InvalidArgument)
    else if IsEphemeralRequest(cfg, req)
         && Find(VolumeName, s.res.volumes, EphemeralName(req.id)).None? then PublishNew(cfg, s, req, env)
    else PublishExisting(cfg, s, req, env)
  }

  /** Unmounting a published target of v, then forgetting the target, or all of v if ephemeral. */
  function Release(v: Volume, target: string, env: Env): Outcome {
    if !env.unmountOk then Fail(Internal)
    else if !env.removeOk then Outcome([Unmount(target)], Failed(Internal))
    else if !v.ephemeral then Outcome([Unpublish(v, target)], Done)
    else if !env.deleteOk then Outcome([Unmount(target)], Failed(Internal))
    else Outcome([Unmount(target), Erase(v)], Done)
  }

  function DoUnpublish(s: Sys, id: string, target: string, env: Env): Outcome {
    if id == "" || target == "" then Fail(InvalidArgument)
    else match Find(VolumeID, s.res.volumes, id)
      case None => Fail(NotFound)
      case Some(v) =>
        if target !in v.published then Outcome([], Done) else Release(v, target, env)
  }

  function Decide(cfg: Config, s: Sys, rpc: Rpc): Outcome {
    match rpc
    case CreateVolume(req, env) => DoCreate(cfg, s, req, env)
    case DeleteVolume(id, env) => DoDelete(cfg, s, id, env)
    case ControllerPublish(id, node, cap, ro) => DoControllerPublish(cfg, s, id, node, cap, ro)
    case ControllerUnpublish(id, node) => DoControllerUnpublish(cfg, s, id, node)
    case NodeStage(id, path, cap) => DoStage(cfg, s, id, path, cap)
    case NodeUnstage(id, path) => DoUnstage(s, id, path)
    case NodePublish(req, env) => DoPublish(cfg, s, req, env)
    case NodeUnpublish(id, target, env) => DoUnpublish(s, id, target, env)
    case Expand(id, size) => DoExpand(cfg, s, id, size)
    case GetCapacity(kind) => DoGetCapacity(cfg, s, kind)
    case SnapshotCall(snaps, groups) => Outcome([Replace(snaps, groups)], Done)
  }

  function Step(cfg: Config, s: Sys, rpc: Rpc): Sys {
    ApplyAll(s, Decide(cfg, s, rpc).events)
  }

  /** The RPC gets as far as reading the store; the others are refused, or answered without it. */
  predicate LooksUp(cfg: Config, rpc: Rpc) {
    match rpc
    case CreateVolume(req, _) => !cfg.ephemeral && req.name != "" && req.hasCapabilities && !(req.block && req.mount)
    case DeleteVolume(id, _) => id != "" && !cfg.ephemeral
    case ControllerPublish(id, node, cap, _) => cfg.enableAttach && id != "" && cap && node == cfg.nodeID != ""
    case ControllerUnpublish(id, node) => cfg.enableAttach && id != "" && node in {"", cfg.nodeID}
    case NodeStage(id, path, cap) => id != "" && path != "" && cap
    case NodeUnstage(id, path) => id != "" && path != ""
    case NodePublish(req, _) => req.hasCapability && req.id != "" && req.target != "" && !(req.block && req.mount)
    case NodeUnpublish(id, target, _) => id != "" && target != ""
    case Expand(id, size) => cfg.enableExpansion && id != "" && size.Some? && size.value <= cfg.maxVolumeSize
    case GetCapacity(_) => |cfg.capacity| > 0
    case SnapshotCall(_, _) => true
  }

  function Run(cfg: Config, s: Sys, rpcs: seq<Rpc>): Sys
    decreases |rpcs|
  {
    if rpcs == [] then s else Run(cfg, Step(cfg, s, rpcs[0]), rpcs[1..])
  }

  // ---- what is known about each event when its RPC makes it ----

  ghost predicate Holds(s: Sys, v: Volume) {
    Find(VolumeID, s.res.volumes, v.volID) == Some(v)
  }

  ghost predicate AdmittedVolume(cfg: Config, vs: seq<Volume>, v: Volume) {
    && v.volSize <= cfg.maxVolumeSize
    && if |cfg.capacity| > 0
       then v.kind != "" && Fits(cfg, vs, v.kind, v.volSize)
       else v.kind == ""
  }

  /** The guards under which an event happens. */
  ghost predicate Enabled(cfg: Config, s: Sys, e: Event) {
    match e
    case Create(v) =>
      && Find(VolumeName, s.res.volumes, v.volName) == None
      && !InUse(v) && v.parentVolID == v.parentSnapID == ""
      && AdmittedVolume(cfg, s.res.volumes, v)
      && (v.ephemeral ==> v.volName == EphemeralName(v.volID) && v.volSize == MIB100)
    case Attach(v, _) =>
      && Holds(s, v) && !v.attached
      && (cfg.attachLimit > 0 ==> AttachCount(s.res.volumes) < cfg.attachLimit)
    case Detach(v) => Holds(s, v) && (cfg.checkLifecycle ==> v.published == [] == v.staged)
    case Stage(v, p) => Holds(s, v) && v.staged == [] && (cfg.enableAttach ==> v.attached)
    case Unstage(v, p) => Holds(s, v) && p in v.staged && v.published == []
    case Publish(v, t, _, mounts) =>
      && Holds(s, v)
      && (v.staged != [] || Find(VolumeName, s.res.volumes, EphemeralName(v.volID)).Some?)
      && (mounts ==> t !in s.mounts)
    case Unpublish(v, t) => Holds(s, v) && t in v.published && !v.ephemeral
    case Unmount(t) => exists v | v in s.res.volumes :: t in v.published
    case Resize(v, size) => Holds(s, v) && v.volSize < size <= cfg.maxVolumeSize
    case Erase(v) => Holds(s, v)
    case Replace(_, _) => true
  }

  /** Which RPC can make which event. */
  ghost predicate CausedBy(cfg: Config, e: Event, rpc: Rpc) {
    match e
    case Create(v) =>
      if v.ephemeral then rpc.NodePublish? && rpc.publish.id == v.volID
                          && IsEphemeralRequest(cfg, rpc.publish)
      else rpc.CreateVolume? && v.volID == rpc.env.uuid && v.volName == rpc.create.name
           && v.volSize == rpc.create.size
    case Publish(v, t, _, mounts) =>
      && rpc.NodePublish? && rpc.publish.target == t && rpc.publish.id == v.volID
      && (mounts <==> rpc.publish.block || rpc.publish.mount)
    case Unmount(t) => rpc.NodeUnpublish? && rpc.target == t
    case Unpublish(v, t) => rpc.NodeUnpublish? && rpc.target == t && rpc.id == v.volID
    case Attach(v, _) => rpc.ControllerPublish? && rpc.id == v.volID
    case Detach(v) => rpc.ControllerUnpublish? && rpc.id == v.volID
    case Stage(v, _) => rpc.NodeStage? && rpc.id == v.volID
    case Unstage(v, _) => rpc.NodeUnstage? && rpc.id == v.volID
    case Resize(v, _) => rpc.Expand? && rpc.id == v.volID
    case Erase(v) =>
      || (rpc.DeleteVolume? && rpc.id == v.volID && (cfg.checkLifecycle ==> !InUse(v)))
      || (rpc.NodeUnpublish? && rpc.id == v.volID && v.ephemeral)
      || (rpc.CreateVolume? && rpc.env.uuid == v.volID && !v.ephemeral && !InUse(v))
    case Replace(_, _) => rpc.SnapshotCall?
  }

  ghost predicate Occurs(cfg: Config, s: Sys, rpc: Rpc, e: Event) {
    Enabled(cfg, s, e) && CausedBy(cfg, e, rpc)
  }

  lemma ApplyOne(s: Sys, e: Event)
    ensures ApplyAll(s, [e]) == Apply(s, e)
  {
    ApplyFew(s, [e]);
  }

  lemma ApplyFew(s: Sys, es: seq<Event>)
    ensures |es| == 0 ==> ApplyAll(s, es) == s
    ensures |es| == 1 ==> ApplyAll(s, es) == Apply(s, es[0])
    ensures |es| == 2 ==> ApplyAll(s, es) == Apply(Apply(s, es[0]), es[1])
  {
    if |es| == 2 {
      var next, rest := Apply(s, es[0]), es[1..];
      assert ApplyAll(s, es) == ApplyAll(next, rest) == ApplyAll(Apply(next, rest[0]), rest[1..]);
    }
  }

  ghost predicate Guarded(cfg: Config, s: Sys, rpc: Rpc, es: seq<Event>) {
    && |es| <= 2
    && (|es| >= 1 ==> Occurs(cfg, s, rpc, es[0]))
    && (|es| == 2 ==>
          && Occurs(cfg, Apply(s, es[0]), rpc, es[1])
          && ((es[0].Create? && (es[1].Publish? || es[1] == Erase(es[0].v)))
              || (es[0].Unmount? && es[1].Erase?)))
  }

  /** Every RPC is at most two guarded events. */
  lemma StepIsEvents(cfg: Config, s: Sys, rpc: Rpc)
    ensures var es := Decide(cfg, s, rpc).events;
            && Guarded(cfg, s, rpc, es)
            && (|es| == 0 ==> Step(cfg, s, rpc) == s)
            && (|es| == 1 ==> Step(cfg, s, rpc) == Apply(s, es[0]))
            && (|es| == 2 ==> Step(cfg, s, rpc) == Apply(Apply(s, es[0]), es[1]))
  {
    ApplyFew(s, Decide(cfg, s, rpc).events);
    match rpc
    case CreateVolume(req, env) => CreateEvents(cfg, s, req, env);
    case NodePublish(req, env) => PublishEvents(cfg, s, req, env);
    case NodeUnpublish(id, target, env) => UnpublishEvents(cfg, s, id, target, env);
    case NodeStage(_, _, _) => StageEvents(cfg, s, rpc);
    case NodeUnstage(_, _) => StageEvents(cfg, s, rpc);
    case GetCapacity(_) =>
    case SnapshotCall(_, _) =>
    case _ => ControllerEvents(cfg, s, rpc);
  }

  lemma StageEvents(cfg: Config, s: Sys, rpc: Rpc)
    requires rpc.NodeStage? || rpc.NodeUnstage?
    ensures Guarded(cfg, s, rpc, Decide(cfg, s, rpc).events)
  {
  }

  lemma ControllerEvents(cfg: Config, s: Sys, rpc: Rpc)
    requires rpc.DeleteVolume? || rpc.ControllerPublish? || rpc.ControllerUnpublish? || rpc.Expand?
    ensures Guarded(cfg, s, rpc, Decide(cfg, s, rpc).events)
  {
  }

  lemma FindAfterPut(vs: seq<Volume>, v: Volume)
    ensures Find(VolumeID, Put(VolumeID, vs, v), v.volID) == Some(v)
  {
    IndexIs(VolumeID, Put(VolumeID, vs, v), v.volID, Index(VolumeID, vs, v.volID));
  }

  lemma CreateEvents(cfg: Config, s: Sys, req: CreateRequest, env: Env)
    ensures Guarded(cfg, s, CreateVolume(req, env), DoCreate(cfg, s, req, env).events)
  {
    var es := DoCreate(cfg, s, req, env).events;
    if |es| >= 1 {
      FindAfterPut(s.res.volumes, es[0].v);
    }
  }

  lemma PublishExistingEvents(cfg: Config, s: Sys, req: PublishRequest, env: Env)
    requires IsEphemeralRequest(cfg, req) ==> Find(VolumeName, s.res.volumes, EphemeralName(req.id)).Some?
    ensures var es := PublishExisting(cfg, s, req, env).events;
            |es| <= 1 && (|es| == 1 ==> Occurs(cfg, s, NodePublish(req, env), es[0]))
  {
  }

  lemma EphemeralCreated(cfg: Config, s: Sys, req: PublishRequest, v: Volume, env: Env)
    requires IsEphemeralRequest(cfg, req)
    requires Find(VolumeName, s.res.volumes, EphemeralName(req.id)).None?
    requires NewVolume(cfg, s.res.volumes, req.id, EphemeralName(req.id), MIB100, MountAccess, true,
                       req.kind, env) == Made(v)
    ensures Occurs(cfg, s, NodePublish(req, env), Create(v))
    ensures Find(VolumeName, Apply(s, Create(v)).res.volumes, EphemeralName(req.id)).Some?
  {
    var ws := Put(VolumeID, s.res.volumes, v);
    assert ws[Index(VolumeID, s.res.volumes, v.volID)] == v;
    FindNone(VolumeName, ws, v.volName);
  }

  lemma PublishEvents(cfg: Config, s: Sys, req: PublishRequest, env: Env)
    ensures Guarded(cfg, s, NodePublish(req, env), DoPublish(cfg, s, req, env).events)
  {
    if !req.hasCapability || req.id == "" || req.target == "" || (req.block && req.mount) {
    } else if IsEphemeralRequest(cfg, req)
              && Find(VolumeName, s.res.volumes, EphemeralName(req.id)).None? {
      var made := NewVolume(cfg, s.res.volumes, req.id, EphemeralName(req.id), MIB100, MountAccess,
                            true, req.kind, env);
      if made.Made? {
        EphemeralCreated(cfg, s, req, made.v, env);
        PublishExistingEvents(cfg, Apply(s, Create(made.v)), req, env);
      }
    } else {
      PublishExistingEvents(cfg, s, req, env);
    }
  }

  /** An unpublish changes something only if the target is published for the volume, and erases only ephemeral ones. */
  lemma UnpublishEvents(cfg: Config, s: Sys, id: string, target: string, env: Env)
    ensures Guarded(cfg, s, NodeUnpublish(id, target, env), DoUnpublish(s, id, target, env).events)
    ensures var es, found := DoUnpublish(s, id, target, env).events, Find(VolumeID, s.res.volumes, id);
            && (es != [] ==> found.Some? && target in found.value.published)
            && (forall e | e in es && (e.Unpublish? || e.Erase?) :: e.v == found.value && (e.Erase? <==> e.v.ephemeral))
  {
    var es := DoUnpublish(s, id, target, env).events;
    if |es| >= 1 {
      var v := Find(VolumeID, s.res.volumes, id).value;
      assert v in s.res.volumes && target in v.published;
    }
  }
}
