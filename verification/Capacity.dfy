/** Pools, sizes, int64 overflow and the attach limit over whole runs. */
module Capacity {
  import opened Common
  import opened KeyedList
  import opened Store
  import opened Driver
  import opened Lifecycle

  // ---- the pools ----

  /** The configuration leaves room for one more volume above any full pool. */
  ghost predicate Sane(cfg: Config) {
    && 0 <= cfg.maxVolumeSize
    && forall k :: 0 <= Quota(cfg, k) && Quota(cfg, k) + cfg.maxVolumeSize < TWO63
  }

  ghost predicate SizesIn(vs: seq<Volume>, limit: Int64) {
    forall v | v in vs :: 0 <= v.volSize <= limit
  }

  ghost predicate WithinPools(cfg: Config, vs: seq<Volume>) {
    forall k :: Used(vs, k) <= Quota(cfg, k)
  }

  predicate NonNegative(rpc: Rpc) { rpc.CreateVolume? ==> 0 <= rpc.create.size }

  lemma UsedNonNegative(vs: seq<Volume>, k: string, limit: Int64)
    requires SizesIn(vs, limit)
    ensures 0 <= Used(vs, k)
  {
    SumNonNegative(SizeOf(k), vs);
  }

  /** With the pools respected, the int64 test is the exact test: nothing overflows. */
  lemma FitsIsExact(cfg: Config, vs: seq<Volume>, k: string, size: Int64)
    requires Sane(cfg) && SizesIn(vs, cfg.maxVolumeSize) && WithinPools(cfg, vs)
    requires size <= cfg.maxVolumeSize
    ensures Wrap64(Used(vs, k)) == Used(vs, k)
    ensures Wrap64(Wrap64(Used(vs, k)) + size) == Used(vs, k) + size
    ensures Fits(cfg, vs, k, size) <==> Used(vs, k) + size <= Quota(cfg, k)
  {
    UsedNonNegative(vs, k, cfg.maxVolumeSize);
    assert Used(vs, k) <= Quota(cfg, k);
  }

  ghost predicate PoolInv(cfg: Config, s: Sys) {
    && Wf(s.res.volumes)
    && SizesIn(s.res.volumes, cfg.maxVolumeSize)
    && WithinPools(cfg, s.res.volumes)
  }

  /** What saving a record does to the total of a kind. */
  lemma UsedAfterPut(vs: seq<Volume>, w: Volume, k: string)
    ensures var before := Find(VolumeID, vs, w.volID);
            Used(Put(VolumeID, vs, w), k) == Used(vs, k) + SizeOf(k)(w)
                                             - (if before.Some? then SizeOf(k)(before.value) else 0)
  {
    SumPut(VolumeID, SizeOf(k), vs, w);
  }

  lemma EventKeepsSizes(cfg: Config, s: Sys, rpc: Rpc, e: Event)
    requires 0 <= cfg.maxVolumeSize
    requires Wf(s.res.volumes) && SizesIn(s.res.volumes, cfg.maxVolumeSize)
    requires Occurs(cfg, s, rpc, e) && NonNegative(rpc)
    ensures SizesIn(Apply(s, e).res.volumes, cfg.maxVolumeSize)
  {
    var vs := s.res.volumes;
    if e.Erase? {
      DropMembers(VolumeID, vs, e.v.volID);
    } else if After(e).Some? {
      PutMembers(VolumeID, vs, After(e).value);
      if !e.Create? {
        FindIsMember(VolumeID, vs, e.v);
      }
    }
  }

  lemma EraseKeepsPool(vs: seq<Volume>, v: Volume, k: string, limit: int)
    requires Wf(vs) && v in vs && v.volSize >= 0 && Used(vs, k) <= limit
    ensures Used(Drop(VolumeID, vs, v.volID), k) <= limit
  {
    SumDrop(VolumeID, SizeOf(k), vs, v.volID);
    FindIsMember(VolumeID, vs, v);
  }

  /** A new record fits if the pool check passed; a changed one keeps its size and kind. */
  lemma PutKeepsPool(cfg: Config, vs: seq<Volume>, w: Volume, k: string)
    requires Sane(cfg) && |cfg.capacity| > 0
    requires Wf(vs) && SizesIn(vs, cfg.maxVolumeSize) && WithinPools(cfg, vs) && 0 <= w.volSize <= cfg.maxVolumeSize
    requires (w.kind == k ==> Fits(cfg, vs, k, w.volSize))
             || (Find(VolumeID, vs, w.volID).Some? && SizeOf(k)(Find(VolumeID, vs, w.volID).value) == SizeOf(k)(w))
    ensures Used(Put(VolumeID, vs, w), k) <= Quota(cfg, k)
  {
    UsedAfterPut(vs, w, k);
    FitsIsExact(cfg, vs, k, w.volSize);
    FindNone(VolumeID, vs, w.volID);
    var before := Find(VolumeID, vs, w.volID);
    assert before.Some? ==> before.value in vs;
  }

  lemma EventKeepsPools(cfg: Config, s: Sys, rpc: Rpc, e: Event)
    requires Sane(cfg) && |cfg.capacity| > 0
    requires PoolInv(cfg, s) && Occurs(cfg, s, rpc, e) && NonNegative(rpc) && !rpc.Expand?
    ensures PoolInv(cfg, Apply(s, e))
  {
    EventKeepsWf(cfg, s, rpc, e);
    EventKeepsSizes(cfg, s, rpc, e);
    var vs := s.res.volumes;
    forall k ensures Used(Apply(s, e).res.volumes, k) <= Quota(cfg, k) {
      if e.Erase? {
        EraseKeepsPool(vs, e.v, k, Quota(cfg, k));
      } else if After(e).Some? {
        if !e.Create? {
          FindIsMember(VolumeID, vs, e.v);
        }
        PutKeepsPool(cfg, vs, After(e).value, k);
      }
    }
  }

  /**
   * With capacity tracking on, in every run without expansion, each kind's total stays within
   * its pool and the driver's int64 totals are the exact ones.
   */
  lemma {:induction false} RunKeepsPools(cfg: Config, s: Sys, rpcs: seq<Rpc>)
    requires Sane(cfg) && |cfg.capacity| > 0 && PoolInv(cfg, s)
    requires forall r | r in rpcs :: NonNegative(r) && !r.Expand?
    ensures PoolInv(cfg, Run(cfg, s, rpcs))
    ensures forall k :: Wrap64(Used(Run(cfg, s, rpcs).res.volumes, k)) == Used(Run(cfg, s, rpcs).res.volumes, k)
    decreases |rpcs|
  {
    if rpcs == [] {
      forall k ensures Wrap64(Used(s.res.volumes, k)) == Used(s.res.volumes, k) {
        FitsIsExact(cfg, s.res.volumes, k, 0);
      }
    } else {
      var rpc := rpcs[0];
      StepIsEvents(cfg, s, rpc);
      var es := Decide(cfg, s, rpc).events;
      if |es| >= 1 {
        EventKeepsPools(cfg, s, rpc, es[0]);
      }
      if |es| == 2 {
        EventKeepsPools(cfg, Apply(s, es[0]), rpc, es[1]);
      }
      RunKeepsPools(cfg, Step(cfg, s, rpc), rpcs[1..]);
    }
  }

  /** In every run, expansion or not, each size stays within MaxVolumeSize. */
  lemma {:induction false} RunKeepsSizes(cfg: Config, s: Sys, rpcs: seq<Rpc>)
    requires 0 <= cfg.maxVolumeSize
    requires Wf(s.res.volumes) && SizesIn(s.res.volumes, cfg.maxVolumeSize)
    requires forall r | r in rpcs :: NonNegative(r)
    ensures SizesIn(Run(cfg, s, rpcs).res.volumes, cfg.maxVolumeSize)
    decreases |rpcs|
  {
    if rpcs != [] {
      var rpc := rpcs[0];
      StepIsEvents(cfg, s, rpc);
      StepKeepsWf(cfg, s, rpc);
      var es := Decide(cfg, s, rpc).events;
      if |es| >= 1 {
        EventKeepsSizes(cfg, s, rpc, es[0]);
        EventKeepsWf(cfg, s, rpc, es[0]);
      }
      if |es| == 2 {
        EventKeepsSizes(cfg, Apply(s, es[0]), rpc, es[1]);
      }
      RunKeepsSizes(cfg, Step(cfg, s, rpc), rpcs[1..]);
    }
  }

  lemma ExpandStep(cfg: Config, s: Sys, id: string, size: Int64, v: Volume)
    requires Wf(s.res.volumes) && v in s.res.volumes && v.volID == id
    requires Decide(cfg, s, Expand(id, Some(size))).reply.Expanded?
    ensures Decide(cfg, s, Expand(id, Some(size))).reply.bytes == if v.volSize < size then size else v.volSize
    ensures Step(cfg, s, Expand(id, Some(size))).res.volumes
            == if v.volSize < size then Put(VolumeID, s.res.volumes, v.(volSize := size)) else s.res.volumes
  {
    FindIsMember(VolumeID, s.res.volumes, v);
    ApplyFew(s, DoExpand(cfg, s, id, Some(size)).events);
  }

  /** An expand raises the total of its kind by exactly new minus old, and no other total. */
  lemma ExpandRaisesByDifference(cfg: Config, s: Sys, id: string, size: Int64, v: Volume, k: string)
    requires Wf(s.res.volumes) && v in s.res.volumes && v.volID == id
    requires Decide(cfg, s, Expand(id, Some(size))).reply.Expanded?
    ensures Decide(cfg, s, Expand(id, Some(size))).reply.bytes == if v.volSize < size then size else v.volSize
    ensures Used(Step(cfg, s, Expand(id, Some(size))).res.volumes, k)
            == Used(s.res.volumes, k)
               + (if v.kind == k && v.volSize < size then size - v.volSize else 0)
  {
    ExpandStep(cfg, s, id, size, v);
    FindIsMember(VolumeID, s.res.volumes, v);
    if v.volSize < size {
      UsedAfterPut(s.res.volumes, v.(volSize := size), k);
    }
  }

  /**
   * Expansion is not checked against the pool: the pools still hold after a successful expand
   * exactly when the pool of the volume had room for the difference.
   */
  lemma ExpandKeepsPoolsExactly(cfg: Config, s: Sys, id: string, size: Int64, v: Volume)
    requires PoolInv(cfg, s) && v in s.res.volumes && v.volID == id && v.volSize < size
    requires Decide(cfg, s, Expand(id, Some(size))).reply.Expanded?
    ensures WithinPools(cfg, Step(cfg, s, Expand(id, Some(size))).res.volumes)
            <==> size - v.volSize <= Quota(cfg, v.kind) - Used(s.res.volumes, v.kind)
  {
    var after := Step(cfg, s, Expand(id, Some(size))).res.volumes;
    forall k ensures Used(after, k) == Used(s.res.volumes, k) + (if v.kind == k then size - v.volSize else 0) {
      ExpandRaisesByDifference(cfg, s, id, size, v, k);
    }
  }

  /** The int64 room of a kind is exact; a kind without a pool has the pool 0. */
  lemma ExactRoom(cfg: Config, vs: seq<Volume>, kind: string)
    requires Sane(cfg) && SizesIn(vs, cfg.maxVolumeSize) && WithinPools(cfg, vs)
    ensures var room := (if kind in cfg.capacity then cfg.capacity[kind] else 0) - Used(vs, kind);
            0 <= room && Wrap64(Quota(cfg, kind) - Wrap64(Used(vs, kind))) == room
  {
    FitsIsExact(cfg, vs, kind, 0);
    UsedNonNegative(vs, kind, cfg.maxVolumeSize);
    assert Used(vs, kind) <= Quota(cfg, kind);
  }

  lemma PoolThreshold(cfg: Config, s: Sys, kind: string, size: Int64)
    requires Sane(cfg) && PoolInv(cfg, s) && |cfg.capacity| > 0
    ensures var reply := DoGetCapacity(cfg, s, kind).reply;
            && reply.available
               == (if kind in cfg.capacity then cfg.capacity[kind] else 0) - Used(s.res.volumes, kind)
            && (size <= reply.maximum
                <==> size <= cfg.maxVolumeSize && Fits(cfg, s.res.volumes, kind, size))
  {
    if size <= cfg.maxVolumeSize {
      FitsIsExact(cfg, s.res.volumes, kind, size);
    }
    ExactRoom(cfg, s.res.volumes, kind);
  }

  /** Without a kind, a volume is admitted exactly when some configured kind has room for it. */
  lemma AnyKindAdmission(cfg: Config, s: Sys, size: Int64, kinds: seq<string>)
    requires Sane(cfg) && PoolInv(cfg, s) && |cfg.capacity| > 0
    requires "" !in cfg.capacity && forall k :: k in kinds <==> k in cfg.capacity
    ensures Admit(cfg, s.res.volumes, "", size, kinds).Admitted?
            <==> size <= cfg.maxVolumeSize
                 && exists k | k in cfg.capacity :: Used(s.res.volumes, k) + size <= Quota(cfg, k)
  {
    if size <= cfg.maxVolumeSize {
      PickKindFinds(cfg, s.res.volumes, size, kinds);
      forall k ensures Fits(cfg, s.res.volumes, k, size) <==> Used(s.res.volumes, k) + size <= Quota(cfg, k) {
        FitsIsExact(cfg, s.res.volumes, k, size);
      }
    }
  }

  /** The largest volume, as GetCapacity reports it. */
  function Maximum(cfg: Config, s: Sys, kind: string): Int64 { DoGetCapacity(cfg, s, kind).reply.maximum }

  /** The i-th kind is the first, as Go iterates them, whose reported maximum is not below the size. */
  predicate FirstWithRoom(cfg: Config, s: Sys, size: Int64, kinds: seq<string>, i: nat) {
    && i < |kinds| && size <= Maximum(cfg, s, kinds[i])
    && forall j | 0 <= j < i :: size > Maximum(cfg, s, kinds[j])
  }

  /** Of the kinds in this order, some first one has room for the size, and it is not named "". */
  ghost predicate NamedRoom(cfg: Config, s: Sys, size: Int64, kinds: seq<string>) {
    exists i: nat :: FirstWithRoom(cfg, s, size, kinds, i) && kinds[i] != ""
  }

  /**
   * The MaximumVolumeSize of GetCapacity against admission. With a kind it is the exact threshold if capacity is
   * tracked; otherwise a kind is always refused, whatever is reported. Without a kind it is the exact threshold if
   * capacity is not tracked; otherwise nothing above 0 is reported unless a kind is named "", and a volume is admitted
   * exactly if the first kind with a large enough maximum is not that one.
   */
  lemma MaximumIsThreshold(cfg: Config, s: Sys, kind: string, size: Int64, kinds: seq<string>)
    requires |cfg.capacity| > 0 ==> Sane(cfg) && PoolInv(cfg, s)
    ensures Admit(cfg, s.res.volumes, kind, size, kinds).Admitted?
            <==> if |cfg.capacity| == 0 then kind == "" && size <= Maximum(cfg, s, kind)
                 else if kind != "" then size <= Maximum(cfg, s, kind)
                 else NamedRoom(cfg, s, size, kinds)
    ensures |cfg.capacity| == 0 ==> Maximum(cfg, s, kind) == cfg.maxVolumeSize
    ensures |cfg.capacity| > 0 && kind == "" && "" !in cfg.capacity ==> Maximum(cfg, s, kind) <= 0
  {
    if |cfg.capacity| > 0 {
      PoolThreshold(cfg, s, kind, size);
      if kind == "" {
        NoRoomWithoutKind(cfg, s);
        FirstKindThreshold(cfg, s, size, kinds);
      }
    }
  }

  lemma NoRoomWithoutKind(cfg: Config, s: Sys)
    requires Sane(cfg) && PoolInv(cfg, s) && |cfg.capacity| > 0
    ensures "" !in cfg.capacity ==> Maximum(cfg, s, "") <= 0
  {
    PoolThreshold(cfg, s, "", 0);
    UsedNonNegative(s.res.volumes, "", cfg.maxVolumeSize);
  }

  lemma FirstKindThreshold(cfg: Config, s: Sys, size: Int64, kinds: seq<string>)
    requires Sane(cfg) && PoolInv(cfg, s) && |cfg.capacity| > 0
    ensures Admit(cfg, s.res.volumes, "", size, kinds).Admitted? <==> NamedRoom(cfg, s, size, kinds)
  {
    if size <= cfg.maxVolumeSize {
      var i := PickKindIsFirst(cfg, s, size, kinds);
      var k := PickKind(cfg, s.res.volumes, size, kinds);
      PoolThreshold(cfg, s, k, size);
    } else {
      forall i: nat ensures !FirstWithRoom(cfg, s, size, kinds, i) {
        if i < |kinds| {
          PoolThreshold(cfg, s, kinds[i], size);
        }
      }
    }
  }

  lemma {:induction false} PickKindIsFirst(cfg: Config, s: Sys, size: Int64, kinds: seq<string>) returns (i: nat)
    requires Sane(cfg) && PoolInv(cfg, s) && |cfg.capacity| > 0 && size <= cfg.maxVolumeSize
    ensures i <= |kinds| && forall j | 0 <= j < i :: size > Maximum(cfg, s, kinds[j])
    ensures if i == |kinds| then PickKind(cfg, s.res.volumes, size, kinds) == ""
            else FirstWithRoom(cfg, s, size, kinds, i) && PickKind(cfg, s.res.volumes, size, kinds) == kinds[i]
  {
    if kinds == [] {
      return 0;
    }
    PoolThreshold(cfg, s, kinds[0], size);
    if size <= Maximum(cfg, s, kinds[0]) {
      return 0;
    }
    var rest := kinds[1..];
    i := PickKindIsFirst(cfg, s, size, rest);
    forall j | 0 <= j < i + 1 ensures size > Maximum(cfg, s, kinds[j]) {
      if j > 0 {
        assert kinds[j] == rest[j - 1];
      }
    }
    i := i + 1;
  }

  lemma {:induction false} PickKindFinds(cfg: Config, vs: seq<Volume>, size: Int64, kinds: seq<string>)
    requires "" !in kinds
    ensures var k := PickKind(cfg, vs, size, kinds);
            if k == "" then forall j | j in kinds :: !Fits(cfg, vs, j, size)
            else k in kinds && Fits(cfg, vs, k, size)
  {
    if kinds != [] {
      PickKindFinds(cfg, vs, size, kinds[1..]);
    }
  }

  // ---- the attach limit ----

  /** What saving a record does to the number of attached volumes. */
  lemma AttachAfterPut(vs: seq<Volume>, w: Volume)
    ensures var before := Find(VolumeID, vs, w.volID);
            AttachCount(Put(VolumeID, vs, w)) == AttachCount(vs) + AttachedOne(w)
                                                 - (if before.Some? then AttachedOne(before.value) else 0)
  {
    SumPut(VolumeID, AttachedOne, vs, w);
  }

  /** A saved record is attached only if it was, or if the attach call had room. */
  lemma SavedAttached(cfg: Config, s: Sys, rpc: Rpc, e: Event)
    requires Occurs(cfg, s, rpc, e) && After(e).Some? && cfg.attachLimit > 0
    ensures var w := After(e).value;
            w.attached ==>
              || AttachCount(s.res.volumes) < cfg.attachLimit
              || (Find(VolumeID, s.res.volumes, w.volID).Some? && Find(VolumeID, s.res.volumes, w.volID).value.attached)
  {
  }

  lemma EventKeepsAttachLimit(cfg: Config, s: Sys, rpc: Rpc, e: Event)
    requires cfg.attachLimit > 0
    requires Wf(s.res.volumes) && Occurs(cfg, s, rpc, e)
    requires AttachCount(s.res.volumes) <= cfg.attachLimit
    ensures AttachCount(Apply(s, e).res.volumes) <= cfg.attachLimit
  {
    var vs := s.res.volumes;
    if e.Erase? {
      SumDrop(VolumeID, AttachedOne, vs, e.v.volID);
    } else if After(e).Some? {
      SavedAttached(cfg, s, rpc, e);
      AttachAfterPut(vs, After(e).value);
    }
  }

  /** In every run the number of attached volumes stays within the limit. */
  lemma {:induction false} RunKeepsAttachLimit(cfg: Config, s: Sys, rpcs: seq<Rpc>)
    requires cfg.attachLimit > 0
    requires Wf(s.res.volumes) && AttachCount(s.res.volumes) <= cfg.attachLimit
    ensures AttachCount(Run(cfg, s, rpcs).res.volumes) <= cfg.attachLimit
    decreases |rpcs|
  {
    if rpcs != [] {
      var rpc := rpcs[0];
      StepIsEvents(cfg, s, rpc);
      StepKeepsWf(cfg, s, rpc);
      var es := Decide(cfg, s, rpc).events;
      if |es| >= 1 {
        EventKeepsAttachLimit(cfg, s, rpc, es[0]);
        EventKeepsWf(cfg, s, rpc, es[0]);
      }
      if |es| == 2 {
        EventKeepsAttachLimit(cfg, Apply(s, es[0]), rpc, es[1]);
      }
      RunKeepsAttachLimit(cfg, Step(cfg, s, rpc), rpcs[1..]);
    }
  }
}
