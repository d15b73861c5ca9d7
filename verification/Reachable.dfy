/** The states that a driver reaches from an empty store. */
module Reachable {
  import opened Store
  import opened Driver
  import opened Lifecycle
  import opened Capacity
  import opened Mounts

  const START := Sys(NOTHING, map[])

  /** Every state reached from an empty store keeps all invariants, each under its own conditions on the run. */
  lemma DriverStates(cfg: Config, rpcs: seq<Rpc>)
    ensures var s := Run(cfg, START, rpcs);
            && Wf(s.res.volumes)
            && (cfg.enableAttach && cfg.checkLifecycle && (forall r | r in rpcs :: Allowed(r)) ==>
                  forall v | v in s.res.volumes :: Proper(v))
            && (Sane(cfg) && |cfg.capacity| > 0 && (forall r | r in rpcs :: NonNegative(r) && !r.Expand?) ==>
                  WithinPools(cfg, s.res.volumes))
            && (0 <= cfg.maxVolumeSize && (forall r | r in rpcs :: NonNegative(r)) ==>
                  SizesIn(s.res.volumes, cfg.maxVolumeSize))
            && (cfg.attachLimit > 0 ==> AttachCount(s.res.volumes) <= cfg.attachLimit)
  {
    RunKeepsUnique(cfg, START, rpcs);
    if cfg.enableAttach && cfg.checkLifecycle && forall r | r in rpcs :: Allowed(r) {
      RunKeepsLifecycle(cfg, START, rpcs);
    }
    if Sane(cfg) && |cfg.capacity| > 0 && forall r | r in rpcs :: NonNegative(r) && !r.Expand? {
      assert WithinPools(cfg, START.res.volumes);
      RunKeepsPools(cfg, START, rpcs);
    }
    if 0 <= cfg.maxVolumeSize && forall r | r in rpcs :: NonNegative(r) {
      RunKeepsSizes(cfg, START, rpcs);
    }
    if cfg.attachLimit > 0 {
      RunKeepsAttachLimit(cfg, START, rpcs);
    }
  }

  /** In every such state mounts and Published lists agree, and without ephemeral volumes each mount has its record. */
  lemma MountedStates(cfg: Config, rpcs: seq<Rpc>, v: Volume, w: Volume, t: string)
    requires SmoothRun(cfg, START, rpcs)
    ensures MountInv(Run(cfg, START, rpcs))
    ensures (v in Run(cfg, START, rpcs).res.volumes && w in Run(cfg, START, rpcs).res.volumes
             && t in v.published && t in w.published) ==> v == w
    ensures cfg.checkLifecycle && (forall r | r in rpcs :: Persistent(cfg, r)) ==> NoOrphans(Run(cfg, START, rpcs))
  {
    RunKeepsMounts(cfg, START, rpcs);
    var s := Run(cfg, START, rpcs);
    if v in s.res.volumes && w in s.res.volumes && t in v.published && t in w.published {
      TargetsDisjoint(s, v, w, t);
    }
    if cfg.checkLifecycle && forall r | r in rpcs :: Persistent(cfg, r) {
      RunKeepsOwners(cfg, START, rpcs);
    }
  }
}
