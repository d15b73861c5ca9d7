/** The Published lists and the node's mount table agree in every run. */
module Mounts {
  import opened Common
  import opened KeyedList
  import opened Store
  import opened Driver
  import opened Lifecycle

  ghost predicate MountedFor(s: Sys, v: Volume, t: string) {
    t in s.mounts && s.mounts[t] == v.volID
  }

  ghost predicate Agrees(s: Sys, v: Volume) {
    && NoDuplicates(v.published)
    && (forall t | t in v.published :: MountedFor(s, v, t))
    && (!v.ephemeral ==> forall t :: MountedFor(s, v, t) ==> t in v.published)
  }

  ghost predicate MountInv(s: Sys) {
    Wf(s.res.volumes) && forall v | v in s.res.volumes :: Agrees(s, v)
  }

  ghost predicate AllOk(env: Env) {
    env.createOk && env.loadOk && env.deleteOk && env.prepareOk && env.mountOk && env.unmountOk && env.removeOk
  }

  /** OS steps succeed, the access type is set, and new UUIDs are not in the mount table. */
  ghost predicate Smooth(s: Sys, rpc: Rpc) {
    && (rpc.NodePublish? ==> AllOk(rpc.env) && (rpc.publish.block || rpc.publish.mount))
    && (rpc.NodeUnpublish? ==> AllOk(rpc.env))
    && (rpc.CreateVolume? ==> FreshUuid(s, rpc) && forall t | t in s.mounts :: s.mounts[t] != rpc.env.uuid)
  }

  /** Smooth holds for each RPC in the state in which it runs. */
  ghost predicate SmoothRun(cfg: Config, s: Sys, rpcs: seq<Rpc>)
    decreases |rpcs|
  {
    rpcs == [] || (Smooth(s, rpcs[0]) && SmoothRun(cfg, Step(cfg, s, rpcs[0]), rpcs[1..]))
  }

  lemma PublishKeeps(cfg: Config, s: Sys, rpc: Rpc, e: Event)
    requires MountInv(s) && Occurs(cfg, s, rpc, e) && Smooth(s, rpc) && e.Publish?
    ensures MountInv(Apply(s, e))
  {
    EventKeepsWf(cfg, s, rpc, e);
    FindIsMember(VolumeID, s.res.volumes, e.v);
    PutMembers(VolumeID, s.res.volumes, After(e).value);
    var s' := Apply(s, e);
    forall v | v in s'.res.volumes ensures Agrees(s', v) {
      if v.volID == e.v.volID {
        assert v == After(e).value;
        assert e.target !in e.v.published;
      } else {
        assert Agrees(s, v) && e.target !in v.published;
        forall t ensures MountedFor(s', v, t) <==> MountedFor(s, v, t) {}
      }
    }
  }

  lemma UnpublishKeeps(cfg: Config, s: Sys, rpc: Rpc, e: Event)
    requires MountInv(s) && Occurs(cfg, s, rpc, e) && e.Unpublish?
    ensures MountInv(Apply(s, e))
  {
    EventKeepsWf(cfg, s, rpc, e);
    FindIsMember(VolumeID, s.res.volumes, e.v);
    PutMembers(VolumeID, s.res.volumes, After(e).value);
    var s' := Apply(s, e);
    forall v | v in s'.res.volumes ensures Agrees(s', v) {
      if v.volID == e.v.volID {
        RemoveFirstDistinct(e.v.published, e.target);
        forall t ensures t in v.published <==> MountedFor(s', v, t) {
          assert t in e.v.published <==> MountedFor(s, e.v, t);
        }
      } else {
        assert Agrees(s, v);
        assert MountedFor(s, e.v, e.target);
        forall t ensures MountedFor(s', v, t) <==> MountedFor(s, v, t) {}
      }
    }
  }

  lemma CarriesOver(s: Sys, s': Sys, w: Volume, v: Volume)
    requires Agrees(s, w) && s'.mounts == s.mounts
    requires v.volID == w.volID && v.published == w.published && v.ephemeral == w.ephemeral
    ensures Agrees(s', v)
  {
    forall t ensures MountedFor(s', v, t) <==> MountedFor(s, w, t) {}
  }

  /** Events that leave the mount table and every Published list alone. */
  lemma OtherKeeps(cfg: Config, s: Sys, rpc: Rpc, e: Event)
    requires MountInv(s) && Occurs(cfg, s, rpc, e) && Smooth(s, rpc)
    requires !e.Publish? && !e.Unpublish? && !e.Unmount?
    ensures MountInv(Apply(s, e))
  {
    EventKeepsWf(cfg, s, rpc, e);
    var s' := Apply(s, e);
    if e.Erase? {
      DropMembers(VolumeID, s.res.volumes, e.v.volID);
    } else if After(e).Some? {
      PutMembers(VolumeID, s.res.volumes, After(e).value);
      if !e.Create? {
        FindIsMember(VolumeID, s.res.volumes, e.v);
      }
    }
    forall v | v in s'.res.volumes ensures Agrees(s', v) {
      if e.Create? && v == e.v {
        assert !v.ephemeral ==> forall t :: !MountedFor(s, v, t);
      } else {
        var w: Volume :| w in s.res.volumes && w.volID == v.volID && w.published == v.published
                         && w.ephemeral == v.ephemeral;
        CarriesOver(s, s', w, v);
      }
    }
  }

  /** Unpublishing an ephemeral volume: unmount, then drop the record. */
  lemma EphemeralUnpublishKeeps(s: Sys, u: Volume, target: string)
    requires MountInv(s) && u in s.res.volumes && target in u.published
    ensures MountInv(Apply(Apply(s, Unmount(target)), Erase(u)))
  {
    var s' := Apply(Apply(s, Unmount(target)), Erase(u));
    DropMembers(VolumeID, s.res.volumes, u.volID);
    DropKeepsOther(VolumeID, VolumeName, s.res.volumes, u.volID);
    assert Agrees(s, u) && MountedFor(s, u, target);
    forall v | v in s'.res.volumes ensures Agrees(s', v) {
      assert Agrees(s, v) && v.volID != u.volID;
      forall t ensures MountedFor(s', v, t) <==> MountedFor(s, v, t) {}
    }
  }

  lemma StepKeepsMounts(cfg: Config, s: Sys, rpc: Rpc)
    requires MountInv(s) && Smooth(s, rpc)
    ensures MountInv(Step(cfg, s, rpc))
  {
    StepIsEvents(cfg, s, rpc);
    var es := Decide(cfg, s, rpc).events;
    if |es| >= 1 && es[0].Unmount? {
      var u := Find(VolumeID, s.res.volumes, rpc.id).value;
      assert es == Release(u, rpc.target, rpc.env).events;
      EphemeralUnpublishKeeps(s, u, rpc.target);
    } else {
      if |es| >= 1 {
        OneKeeps(cfg, s, rpc, es[0]);
      }
      if |es| == 2 {
        var next := Apply(s, es[0]);
        if es[1].Publish? {
          PublishKeeps(cfg, next, rpc, es[1]);
        } else {
          EraseKeeps(next, es[1].v.volID);
        }
      }
    }
  }

  lemma EraseKeeps(s: Sys, id: string)
    requires MountInv(s)
    ensures MountInv(s.(res := s.res.(volumes := Drop(VolumeID, s.res.volumes, id))))
  {
    var s' := s.(res := s.res.(volumes := Drop(VolumeID, s.res.volumes, id)));
    DropMembers(VolumeID, s.res.volumes, id);
    DropKeepsOther(VolumeID, VolumeName, s.res.volumes, id);
    forall v | v in s'.res.volumes ensures Agrees(s', v) {
      assert Agrees(s, v);
      forall t ensures MountedFor(s', v, t) <==> MountedFor(s, v, t) {}
    }
  }

  lemma OneKeeps(cfg: Config, s: Sys, rpc: Rpc, e: Event)
    requires MountInv(s) && Occurs(cfg, s, rpc, e) && Smooth(s, rpc) && !e.Unmount?
    ensures MountInv(Apply(s, e))
  {
    if e.Publish? {
      PublishKeeps(cfg, s, rpc, e);
    } else if e.Unpublish? {
      UnpublishKeeps(cfg, s, rpc, e);
    } else {
      OtherKeeps(cfg, s, rpc, e);
    }
  }

  /**
   * In every reachable state each Published list is free of duplicates and, for a persistent
   * volume, is exactly the set of targets mounted for it.
   */
  lemma {:induction false} RunKeepsMounts(cfg: Config, s: Sys, rpcs: seq<Rpc>)
    requires MountInv(s) && SmoothRun(cfg, s, rpcs)
    ensures MountInv(Run(cfg, s, rpcs))
    decreases |rpcs|
  {
    if rpcs != [] {
      StepKeepsMounts(cfg, s, rpcs[0]);
      RunKeepsMounts(cfg, Step(cfg, s, rpcs[0]), rpcs[1..]);
    }
  }

  /** No target is in the lists of two volumes. */
  lemma TargetsDisjoint(s: Sys, v: Volume, w: Volume, t: string)
    requires MountInv(s) && v in s.res.volumes && w in s.res.volumes
    requires t in v.published && t in w.published
    ensures v == w
  {
    assert Agrees(s, v) && Agrees(s, w);
    assert MountedFor(s, v, t) && MountedFor(s, w, t);
    FindIsMember(VolumeID, s.res.volumes, v);
    FindIsMember(VolumeID, s.res.volumes, w);
  }

  // ---- with the lifecycle checked, no mount outlives its record ----

  /** Persistent volumes only, and every mount belongs to a stored record. */
  ghost predicate NoOrphans(s: Sys) {
    && MountInv(s)
    && (forall v | v in s.res.volumes :: !v.ephemeral)
    && (forall t | t in s.mounts :: Stored(s.res.volumes, s.mounts[t]))
  }

  ghost predicate Stored(vs: seq<Volume>, id: string) {
    exists v | v in vs :: v.volID == id
  }

  lemma PutStores(vs: seq<Volume>, w: Volume, id: string)
    requires Distinct(VolumeID, vs) && (Stored(vs, id) || id == w.volID)
    ensures Stored(Put(VolumeID, vs, w), id)
  {
    PutMembers(VolumeID, vs, w);
    assert w in Put(VolumeID, vs, w);
    if id != w.volID {
      var v :| v in vs && v.volID == id;
      assert v in Put(VolumeID, vs, w);
    }
  }

  lemma DropStores(vs: seq<Volume>, k: string, id: string)
    requires Distinct(VolumeID, vs) && Stored(vs, id) && id != k
    ensures Stored(Drop(VolumeID, vs, k), id)
  {
    DropMembers(VolumeID, vs, k);
    var v :| v in vs && v.volID == id;
    assert v in Drop(VolumeID, vs, k);
  }

  ghost predicate Persistent(cfg: Config, rpc: Rpc) {
    rpc.NodePublish? ==> !IsEphemeralRequest(cfg, rpc.publish)
  }

  lemma SavedIsPersistent(cfg: Config, s: Sys, rpc: Rpc, e: Event)
    requires NoOrphans(s) && Occurs(cfg, s, rpc, e) && Persistent(cfg, rpc)
    ensures forall v | v in ApplyToVolumes(s.res.volumes, e) :: !v.ephemeral
  {
    if e.Erase? {
      DropMembers(VolumeID, s.res.volumes, e.v.volID);
    } else if After(e).Some? {
      PutMembers(VolumeID, s.res.volumes, After(e).value);
      if !e.Create? {
        FindIsMember(VolumeID, s.res.volumes, e.v);
      }
    }
  }

  /** A record that is erased owns no mount. */
  lemma ErasedOwnsNothing(cfg: Config, s: Sys, rpc: Rpc, e: Event, t: string)
    requires cfg.checkLifecycle && NoOrphans(s) && Occurs(cfg, s, rpc, e) && e.Erase?
    ensures !MountedFor(s, e.v, t)
  {
    FindIsMember(VolumeID, s.res.volumes, e.v);
    assert Agrees(s, e.v) && e.v.published == [];
  }

  lemma EventKeepsOwners(cfg: Config, s: Sys, rpc: Rpc, e: Event)
    requires cfg.checkLifecycle && NoOrphans(s) && Occurs(cfg, s, rpc, e)
    requires Smooth(s, rpc) && Persistent(cfg, rpc) && !e.Unmount?
    ensures NoOrphans(Apply(s, e))
  {
    OneKeeps(cfg, s, rpc, e);
    SavedIsPersistent(cfg, s, rpc, e);
    var s' := Apply(s, e);
    forall t | t in s'.mounts ensures Stored(s'.res.volumes, s'.mounts[t]) {
      if e.Erase? {
        ErasedOwnsNothing(cfg, s, rpc, e, t);
        DropStores(s.res.volumes, e.v.volID, s'.mounts[t]);
      } else if After(e).Some? {
        PutStores(s.res.volumes, After(e).value, s'.mounts[t]);
      }
    }
  }

  /** Creating a volume, and undoing the creation, keeps every owner. */
  lemma CreateKeepsOwners(cfg: Config, s: Sys, rpc: Rpc)
    requires cfg.checkLifecycle && rpc.CreateVolume? && NoOrphans(s) && Smooth(s, rpc)
    ensures NoOrphans(Step(cfg, s, rpc))
  {
    StepIsEvents(cfg, s, rpc);
    var es := Decide(cfg, s, rpc).events;
    if |es| >= 1 {
      var v := es[0].v;
      if |es| == 1 {
        EventKeepsOwners(cfg, s, rpc, es[0]);
      } else {
        PutThenDrop(VolumeID, s.res.volumes, v);
        assert Step(cfg, s, rpc) == s;
      }
    }
  }

  /** In runs of persistent volumes with lifecycle checks, every mount has its record. */
  lemma {:induction false} RunKeepsOwners(cfg: Config, s: Sys, rpcs: seq<Rpc>)
    requires cfg.checkLifecycle && NoOrphans(s) && SmoothRun(cfg, s, rpcs)
    requires forall r | r in rpcs :: Persistent(cfg, r)
    ensures NoOrphans(Run(cfg, s, rpcs))
    decreases |rpcs|
  {
    if rpcs != [] {
      var rpc := rpcs[0];
      if rpc.CreateVolume? {
        CreateKeepsOwners(cfg, s, rpc);
      } else {
        StepIsEvents(cfg, s, rpc);
        var es := Decide(cfg, s, rpc).events;
        if |es| >= 1 {
          assert !es[0].Unmount?;
          EventKeepsOwners(cfg, s, rpc, es[0]);
        }
      }
      RunKeepsOwners(cfg, Step(cfg, s, rpc), rpcs[1..]);
    }
  }
}
