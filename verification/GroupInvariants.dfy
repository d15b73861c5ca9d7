/** Group snapshots and their members stay consistent over whole runs. */
module GroupInvariants {
  import opened Common
  import opened KeyedList
  import opened Store
  import opened Ordering
  import opened Driver
  import opened Groups

  /** The source volume of a stored snapshot. */
  ghost function VolumeOf(snaps: seq<Snapshot>, id: string): string {
    var s := Find(SnapshotID, snaps, id);
    if s.Some? then s.value.volID else ""
  }

  ghost function VolumesOf(snaps: seq<Snapshot>, ids: seq<string>): seq<string> {
    if ids == [] then [] else VolumesOf(snaps, ids[..|ids| - 1]) + [VolumeOf(snaps, ids[|ids| - 1])]
  }

  /** The ID resolves to a stored snapshot that carries the group's ID. */
  ghost predicate IsMember(snaps: seq<Snapshot>, gid: string, id: string) {
    var s := Find(SnapshotID, snaps, id);
    s.Some? && s.value.groupSnapshotID == gid
  }

  ghost predicate GroupOk(snaps: seq<Snapshot>, g: GroupSnapshot) {
    && g.id != ""
    && NoDuplicates(g.snapshotIDs)
    && (forall id :: id in g.snapshotIDs <==> IsMember(snaps, g.id, id))
    && multiset(VolumesOf(snaps, g.snapshotIDs)) == multiset(g.sourceVolumeIDs)
  }

  /** What one stored or remembered copy of the resources satisfies. */
  ghost predicate GroupsOk(r: Resources) {
    && Distinct(SnapshotID, r.snapshots)
    && Distinct(GroupID, r.groups)
    && forall g | g in r.groups :: GroupOk(r.snapshots, g)
  }

  ghost predicate ProcOk(p: Proc) {
    && GroupsOk(p.memory)
    && (match p.cell case None => p.memory.groups == [] case Some(r) => GroupsOk(r))
  }

  /** The ID is used by no snapshot, and the group ID by no group and no snapshot. */
  ghost predicate FreshSnapshot(r: Resources, id: string) {
    forall s | s in r.snapshots :: s.id != id
  }

  ghost predicate FreshGroup(r: Resources, gid: string) {
    gid != "" && (forall g | g in r.groups :: g.id != gid) && (forall s | s in r.snapshots :: s.groupSnapshotID != gid)
  }

  // ---- lookups ----

  lemma {:induction false} VolumesOfSame(snaps: seq<Snapshot>, snaps': seq<Snapshot>, ids: seq<string>)
    requires forall id | id in ids :: Find(SnapshotID, snaps, id) == Find(SnapshotID, snaps', id)
    ensures VolumesOf(snaps, ids) == VolumesOf(snaps', ids)
  {
    if ids != [] {
      assert ids[|ids| - 1] in ids;
      VolumesOfSame(snaps, snaps', ids[..|ids| - 1]);
    }
  }

  lemma {:induction false} VolumesOfConcat(snaps: seq<Snapshot>, xs: seq<string>, ys: seq<string>)
    ensures VolumesOf(snaps, xs + ys) == VolumesOf(snaps, xs) + VolumesOf(snaps, ys)
  {
    if ys == [] {
      assert xs + ys == xs;
    } else {
      assert (xs + ys)[..|xs + ys| - 1] == xs + ys[..|ys| - 1];
      VolumesOfConcat(snaps, xs, ys[..|ys| - 1]);
    }
  }

  lemma VolumesOfOne(snaps: seq<Snapshot>, id: string)
    ensures VolumesOf(snaps, [id]) == [VolumeOf(snaps, id)]
  {
    assert VolumesOf(snaps, [id][..0]) == [];
  }

  lemma VolumesWithout(snaps: seq<Snapshot>, ids: seq<string>, id: string)
    requires id in ids
    ensures multiset(VolumesOf(snaps, ids))
            == multiset(VolumesOf(snaps, RemoveFirst(ids, id))) + multiset{VolumeOf(snaps, id)}
  {
    var i := IndexOf(ids, id);
    assert ids == ids[..i] + [id] + ids[i + 1..];
    VolumesOfConcat(snaps, ids[..i] + [id], ids[i + 1..]);
    VolumesOfConcat(snaps, ids[..i], [id]);
    VolumesOfConcat(snaps, ids[..i], ids[i + 1..]);
    VolumesOfOne(snaps, id);
  }

  /** Reordering the members reorders their volumes. */
  lemma {:induction false} VolumesOfPermutation(snaps: seq<Snapshot>, xs: seq<string>, ys: seq<string>)
    requires multiset(xs) == multiset(ys)
    ensures multiset(VolumesOf(snaps, xs)) == multiset(VolumesOf(snaps, ys))
    decreases |xs|
  {
    if xs == [] {
      assert |multiset(ys)| == 0;
    } else {
      var id := xs[0];
      assert id in multiset(xs);
      assert id in multiset(ys);
      VolumesOfPermutation(snaps, RemoveFirst(xs, id), RemoveFirst(ys, id));
      VolumesWithout(snaps, xs, id);
      VolumesWithout(snaps, ys, id);
    }
  }

  lemma FindAfterPut(snaps: seq<Snapshot>, s: Snapshot, id: string)
    requires Distinct(SnapshotID, snaps)
    ensures Find(SnapshotID, Put(SnapshotID, snaps, s), id)
            == if id == s.id then Some(s) else Find(SnapshotID, snaps, id)
  {
    PutMembers(SnapshotID, snaps, s);
    var r := Put(SnapshotID, snaps, s);
    if id == s.id {
      FindIsMember(SnapshotID, r, s);
    } else if Find(SnapshotID, snaps, id).Some? {
      FindIsMember(SnapshotID, r, Find(SnapshotID, snaps, id).value);
    } else {
      FindNone(SnapshotID, snaps, id);
      FindNone(SnapshotID, r, id);
    }
  }

  lemma FindAfterDrop(snaps: seq<Snapshot>, k: string, id: string)
    requires Distinct(SnapshotID, snaps)
    ensures Find(SnapshotID, Drop(SnapshotID, snaps, k), id) == if id == k then None else Find(SnapshotID, snaps, id)
  {
    DropMembers(SnapshotID, snaps, k);
    var r := Drop(SnapshotID, snaps, k);
    if id == k {
      FindNone(SnapshotID, r, id);
    } else if Find(SnapshotID, snaps, id).Some? {
      FindIsMember(SnapshotID, r, Find(SnapshotID, snaps, id).value);
    } else {
      FindNone(SnapshotID, snaps, id);
      FindNone(SnapshotID, r, id);
    }
  }

  /** A group only depends on what its own members resolve to. */
  lemma GroupOkFrame(snaps: seq<Snapshot>, snaps': seq<Snapshot>, g: GroupSnapshot)
    requires GroupOk(snaps, g)
    requires forall id | IsMember(snaps, g.id, id) || IsMember(snaps', g.id, id) ::
               Find(SnapshotID, snaps, id) == Find(SnapshotID, snaps', id)
    ensures GroupOk(snaps', g)
  {
    forall id ensures id in g.snapshotIDs <==> IsMember(snaps', g.id, id) {
      assert id in g.snapshotIDs <==> IsMember(snaps, g.id, id);
    }
    VolumesOfSame(snaps, snaps', g.snapshotIDs);
  }

  // ---- single snapshots ----

  lemma PutKeepsGroups(r: Resources, s: Snapshot)
    requires GroupsOk(r) && FreshSnapshot(r, s.id) && forall g | g in r.groups :: g.id != s.groupSnapshotID
    ensures GroupsOk(r.(snapshots := Put(SnapshotID, r.snapshots, s)))
  {
    var snaps' := Put(SnapshotID, r.snapshots, s);
    PutMembers(SnapshotID, r.snapshots, s);
    FindNone(SnapshotID, r.snapshots, s.id);
    forall g | g in r.groups ensures GroupOk(snaps', g) {
      forall id | IsMember(r.snapshots, g.id, id) || IsMember(snaps', g.id, id)
        ensures Find(SnapshotID, r.snapshots, id) == Find(SnapshotID, snaps', id)
      {
        FindAfterPut(r.snapshots, s, id);
      }
      GroupOkFrame(r.snapshots, snaps', g);
    }
  }

  /** Deleting a snapshot keeps the groups consistent exactly when no group has it. */
  lemma DropKeepsGroupsExactly(r: Resources, id: string)
    requires GroupsOk(r)
    ensures GroupsOk(r.(snapshots := Drop(SnapshotID, r.snapshots, id)))
            <==> forall g | g in r.groups :: id !in g.snapshotIDs
  {
    var snaps' := Drop(SnapshotID, r.snapshots, id);
    DropMembers(SnapshotID, r.snapshots, id);
    FindAfterDrop(r.snapshots, id, id);
    forall g | g in r.groups ensures GroupOk(snaps', g) <==> id !in g.snapshotIDs {
      assert !IsMember(snaps', g.id, id);
      if id !in g.snapshotIDs {
        forall k | IsMember(r.snapshots, g.id, k) || IsMember(snaps', g.id, k)
          ensures Find(SnapshotID, r.snapshots, k) == Find(SnapshotID, snaps', k)
        {
          FindAfterDrop(r.snapshots, id, k);
        }
        GroupOkFrame(r.snapshots, snaps', g);
      }
    }
  }

  lemma ReloadedOk(p: Proc)
    requires ProcOk(p)
    ensures ProcOk(Reloaded(p))
  {
  }

  lemma SameGroupsOk(a: Resources, b: Resources)
    requires GroupsOk(a) && b.snapshots == a.snapshots && b.groups == a.groups
    ensures GroupsOk(b)
  {
  }

  // ---- creating a group ----

  ghost predicate FreshCall(r: Resources, vols: seq<string>, env: GroupEnv) {
    && Supplied(vols, env) && NoDuplicates(env.ids) && FreshGroup(r, env.gid)
    && forall id | id in env.ids :: FreshSnapshot(r, id)
  }

  /** m is r with one new snapshot per listed ID, carrying the new group ID. */
  ghost predicate Grown(r: Resources, m: Resources, gid: string, ids: seq<string>, vols: seq<string>) {
    && GroupsOk(m) && m.groups == r.groups
    && (forall id | id !in ids :: Find(SnapshotID, m.snapshots, id) == Find(SnapshotID, r.snapshots, id))
    && (forall id | id in ids :: IsMember(m.snapshots, gid, id))
    && VolumesOf(m.snapshots, ids) == vols
  }

  lemma Grow(r: Resources, m: Resources, gid: string, ids: seq<string>, vols: seq<string>, snap: Snapshot)
    requires Grown(r, m, gid, ids, vols) && FreshGroup(r, gid)
    requires snap.id !in ids && FreshSnapshot(r, snap.id) && snap.groupSnapshotID == gid
    ensures Grown(r, m.(snapshots := Put(SnapshotID, m.snapshots, snap)), gid, ids + [snap.id], vols + [snap.volID])
  {
    FindNone(SnapshotID, r.snapshots, snap.id);
    FindNone(SnapshotID, m.snapshots, snap.id);
    PutKeepsGroups(m, snap);
    var snaps' := Put(SnapshotID, m.snapshots, snap);
    forall j
      ensures Find(SnapshotID, snaps', j) == if j == snap.id then Some(snap) else Find(SnapshotID, m.snapshots, j)
    {
      FindAfterPut(m.snapshots, snap, j);
    }
    VolumesOfSame(m.snapshots, snaps', ids);
    VolumesOfConcat(snaps', ids, [snap.id]);
    VolumesOfOne(snaps', snap.id);
  }

  /** After k members: the groups are as stored, and the new ones carry the new group ID. */
  ghost predicate MadeSoFar(r: Resources, q: Partial, vols: seq<string>, env: GroupEnv, k: nat)
    requires Supplied(vols, env) && k <= |vols|
  {
    Grown(r, q.proc.memory, env.gid, env.ids[..k], vols[..k])
  }

  lemma NextIsNew(ids: seq<string>, k: nat)
    requires NoDuplicates(ids) && k < |ids|
    ensures ids[k] in ids && ids[k] !in ids[..k] && ids[..k + 1] == ids[..k] + [ids[k]]
  {
  }

  lemma MemberGrows(r: Resources, m: Resources, vols: seq<string>, env: GroupEnv, k: nat, snap: Snapshot)
    requires FreshCall(r, vols, env) && k < |vols| && Grown(r, m, env.gid, env.ids[..k], vols[..k])
    requires snap.id == env.ids[k] && snap.volID == vols[k] && snap.groupSnapshotID == env.gid
    ensures Grown(r, m.(snapshots := Put(SnapshotID, m.snapshots, snap)), env.gid, env.ids[..k + 1], vols[..k + 1])
  {
    NextIsNew(env.ids, k);
    Grow(r, m, env.gid, env.ids[..k], vols[..k], snap);
    assert vols[..k + 1] == vols[..k] + [vols[k]];
  }

  lemma MemberMade(cfg: Config, r: Resources, q: Partial, name: string, vols: seq<string>, env: GroupEnv, k: nat)
    requires FreshCall(r, vols, env) && k < |vols|
    requires MadeSoFar(r, q, vols, env, k) && Reloaded(q.proc) == q.proc
    ensures var n := SnapshotMember(cfg, q, name, vols, env, k);
            if n.failed.Some? then n.proc == q.proc
            else MadeSoFar(r, n, vols, env, k + 1) && n.proc == Saved(n.proc.memory)
  {
    if SnapshotMember(cfg, q, name, vols, env, k).failed.None? {
      var v := Find(VolumeID, q.proc.memory.volumes, vols[k]).value;
      MemberGrows(r, q.proc.memory, vols, env, k, MemberSnapshot(cfg, name, v, vols[k], env.ids[k], env));
    }
  }

  lemma NoneMade(r: Resources, q: Partial, vols: seq<string>, env: GroupEnv)
    requires Supplied(vols, env) && GroupsOk(r) && q.proc.memory == r
    ensures MadeSoFar(r, q, vols, env, 0)
  {
    assert env.ids[..0] == [] && vols[..0] == [];
  }

  /** The first member reloads, whatever the process remembers. */
  lemma FirstMember(cfg: Config, p: Proc, name: string, vols: seq<string>, env: GroupEnv)
    requires Supplied(vols, env) && vols != []
    ensures SnapshotMembers(cfg, p, name, vols, env, 1)
            == SnapshotMember(cfg, Partial(Reloaded(p), [], None), name, vols, env, 0)
  {
    assert SnapshotMembers(cfg, p, name, vols, env, 0) == Partial(p, [], None);
  }

  /** From the second member on memory and cell are the same; a failure leaves what was made. */
  lemma {:induction false} MembersMade(cfg: Config, p: Proc, name: string, vols: seq<string>, env: GroupEnv, k: nat)
    requires ProcOk(p) && FreshCall(Reload(p.memory, p.cell), vols, env) && 0 < k <= |vols|
    ensures var q := SnapshotMembers(cfg, p, name, vols, env, k);
            && ProcOk(q.proc) && q.proc == Reloaded(q.proc)
            && (q.failed.None? ==> MadeSoFar(Reload(p.memory, p.cell), q, vols, env, k))
  {
    var r := Reload(p.memory, p.cell);
    ReloadedOk(p);
    if k == 1 {
      var again := Partial(Reloaded(p), [], None);
      FirstMember(cfg, p, name, vols, env);
      NoneMade(r, again, vols, env);
      MemberMade(cfg, r, again, name, vols, env, 0);
    } else {
      MembersMade(cfg, p, name, vols, env, k - 1);
      var q := SnapshotMembers(cfg, p, name, vols, env, k - 1);
      if q.failed.None? {
        MemberMade(cfg, r, q, name, vols, env, k - 1);
      }
    }
  }

  lemma NotMemberBefore(r: Resources, gid: string, id: string)
    requires FreshGroup(r, gid)
    ensures !IsMember(r.snapshots, gid, id)
  {
    var s := Find(SnapshotID, r.snapshots, id);
    assert s.Some? ==> s.value in r.snapshots;
  }

  /** Recording the group once all members are made. */
  lemma RecordGroup(r: Resources, q: Partial, name: string, vols: seq<string>, env: GroupEnv)
    requires FreshCall(r, vols, env) && MadeSoFar(r, q, vols, env, |vols|)
    ensures GroupsOk(q.proc.memory.(groups := Put(GroupID, q.proc.memory.groups,
                                      GroupSnapshot(name, env.gid, env.ids, vols, env.time, true))))
  {
    var g := GroupSnapshot(name, env.gid, env.ids, vols, env.time, true);
    var snaps := q.proc.memory.snapshots;
    assert env.ids[..|vols|] == env.ids && vols[..|vols|] == vols;
    forall id ensures id in env.ids <==> IsMember(snaps, env.gid, id) {
      NotMemberBefore(r, env.gid, id);
    }
    assert GroupOk(snaps, g);
    PutMembers(GroupID, r.groups, g);
  }

  /** Sorting a group's lists in place breaks their pairing, not their agreement as multisets. */
  lemma SortedGroupOk(r: Resources, i: nat, g: GroupSnapshot)
    requires GroupsOk(r) && i < |r.groups|
    requires var was := r.groups[i];
             g.id == was.id && multiset(g.snapshotIDs) == multiset(was.snapshotIDs)
             && multiset(g.sourceVolumeIDs) == multiset(was.sourceVolumeIDs)
    ensures GroupsOk(r.(groups := r.groups[i := g]))
  {
    var was := r.groups[i];
    assert GroupOk(r.snapshots, was);
    NoDuplicatesCount(was.snapshotIDs);
    CountNoDuplicates(g.snapshotIDs);
    forall id ensures id in g.snapshotIDs <==> IsMember(r.snapshots, g.id, id) {
      assert id in g.snapshotIDs <==> id in multiset(g.snapshotIDs);
      assert id in was.snapshotIDs <==> id in multiset(was.snapshotIDs);
      assert id in was.snapshotIDs <==> IsMember(r.snapshots, was.id, id);
    }
    VolumesOfPermutation(r.snapshots, g.snapshotIDs, was.snapshotIDs);
    var gs := r.groups[i := g];
    forall a, b | 0 <= a < b < |gs| ensures GroupID(gs[a]) != GroupID(gs[b]) {
      assert GroupID(r.groups[a]) != GroupID(r.groups[b]);
    }
    forall h | h in gs ensures GroupOk(r.snapshots, h) {
      if h != g {
        var j :| 0 <= j < |gs| && gs[j] == h;
        assert r.groups[j] in r.groups;
      }
    }
  }

  lemma ComparedFacts(xs: seq<string>, ys: seq<string>)
    ensures multiset(Compared(xs, ys)) == multiset(xs)
  {
    SortedFacts(xs);
  }

  lemma CreateGroupOk(cfg: Config, p: Proc, name: string, vols: seq<string>, env: GroupEnv)
    requires ProcOk(p) && FreshCall(Reload(p.memory, p.cell), vols, env)
    ensures ProcOk(CreateGroup(cfg, p, name, vols, env).proc)
  {
    if name != "" && vols != [] {
      var i := Index(GroupName, p.memory.groups, name);
      if i < |p.memory.groups| {
        var was := p.memory.groups[i];
        ComparedFacts(was.sourceVolumeIDs, vols);
        SortedGroupOk(p.memory, i, was.(sourceVolumeIDs := Compared(was.sourceVolumeIDs, vols)));
      } else {
        MembersMade(cfg, p, name, vols, env, |vols|);
        var q := SnapshotMembers(cfg, p, name, vols, env, |vols|);
        if q.failed.None? {
          RecordGroup(Reload(p.memory, p.cell), q, name, vols, env);
        }
      }
    }
  }

  lemma {:induction false} MembersResolve(snaps: seq<Snapshot>, gid: string, ids: seq<string>)
    requires forall id | id in ids :: IsMember(snaps, gid, id)
    ensures Resolve(snaps, ids).Some?
  {
    if ids != [] {
      assert ids[|ids| - 1] in ids;
      MembersResolve(snaps, gid, ids[..|ids| - 1]);
    }
  }

  /** The snapshots found are those with the IDs, in order. */
  lemma {:induction false} ResolvedAre(snaps: seq<Snapshot>, ids: seq<string>)
    requires Resolve(snaps, ids).Some?
    ensures var found := Resolve(snaps, ids).value;
            |found| == |ids| && forall i | 0 <= i < |ids| :: found[i] in snaps && found[i].id == ids[i]
  {
    if ids != [] {
      ResolvedAre(snaps, ids[..|ids| - 1]);
    }
  }

  lemma MembersFound(snaps: seq<Snapshot>, g: GroupSnapshot)
    requires Distinct(SnapshotID, snaps) && GroupOk(snaps, g)
    ensures Resolve(snaps, g.snapshotIDs).Some?
    ensures var found := Resolve(snaps, g.snapshotIDs).value;
            |found| == |g.snapshotIDs| && forall i | 0 <= i < |g.snapshotIDs| ::
              found[i] in snaps && found[i].id == g.snapshotIDs[i] && found[i].groupSnapshotID == g.id
  {
    MembersResolve(snaps, g.id, g.snapshotIDs);
    ResolvedAre(snaps, g.snapshotIDs);
    var found := Resolve(snaps, g.snapshotIDs).value;
    forall i | 0 <= i < |found| ensures found[i].groupSnapshotID == g.id {
      FindIsMember(SnapshotID, snaps, found[i]);
      assert g.snapshotIDs[i] in g.snapshotIDs;
      assert IsMember(snaps, g.id, g.snapshotIDs[i]);
    }
  }

  /**
   * Asking again for an existing group, with its source volumes in any order, succeeds and returns the same group
   * with exactly its member snapshots. The cell stays, and in memory all that can change is the order of the group's
   * source volumes.
   */
  lemma RepeatedCreateGroup(cfg: Config, p: Proc, g: GroupSnapshot, vols: seq<string>, env: GroupEnv)
    requires ProcOk(p) && Supplied(vols, env)
    requires Find(GroupName, p.memory.groups, g.name) == Some(g) && g.name != ""
    requires multiset(vols) == multiset(g.sourceVolumeIDs) && vols != []
    ensures var r := CreateGroup(cfg, p, g.name, vols, env);
            && r.reply.Group? && r.reply.id == g.id && r.proc.cell == p.cell
            && |r.reply.members| == |g.snapshotIDs|
            && (forall i | 0 <= i < |g.snapshotIDs| ::
                  r.reply.members[i] in p.memory.snapshots && r.reply.members[i].id == g.snapshotIDs[i]
                  && r.reply.members[i].groupSnapshotID == g.id)
            && var i := Index(GroupName, p.memory.groups, g.name);
               var h := g.(sourceVolumeIDs := Compared(g.sourceVolumeIDs, vols));
               && i < |p.memory.groups| && p.memory.groups[i] == g
               && multiset(h.sourceVolumeIDs) == multiset(g.sourceVolumeIDs)
               && r.proc.memory == p.memory.(groups := p.memory.groups[i := h])
  {
    ComparedFacts(g.sourceVolumeIDs, vols);
    MembersFound(p.memory.snapshots, g);
  }

  // ---- deleting a group ----

  function Without(snaps: seq<Snapshot>, ids: seq<string>): seq<Snapshot> {
    if snaps == [] then []
    else (if snaps[0].id in ids then [] else [snaps[0]]) + Without(snaps[1..], ids)
  }

  lemma {:induction false} WithoutNothing(snaps: seq<Snapshot>, ids: seq<string>)
    requires forall s | s in snaps :: s.id !in ids
    ensures Without(snaps, ids) == snaps
  {
    if snaps != [] {
      WithoutNothing(snaps[1..], ids);
    }
  }

  lemma NotInTail(snaps: seq<Snapshot>)
    requires Distinct(SnapshotID, snaps) && snaps != []
    ensures forall s | s in snaps[1..] :: s.id != snaps[0].id
    ensures Distinct(SnapshotID, snaps[1..])
  {
    forall s | s in snaps[1..] ensures s.id != snaps[0].id {
      var j :| 0 <= j < |snaps[1..]| && snaps[1..][j] == s;
      assert SnapshotID(snaps[0]) != SnapshotID(snaps[j + 1]);
    }
    forall i, j | 0 <= i < j < |snaps[1..]| ensures SnapshotID(snaps[1..][i]) != SnapshotID(snaps[1..][j]) {
      assert SnapshotID(snaps[i + 1]) != SnapshotID(snaps[j + 1]);
    }
  }

  lemma {:induction false} WithoutOneMore(snaps: seq<Snapshot>, ids: seq<string>, id: string)
    requires Distinct(SnapshotID, snaps)
    ensures Drop(SnapshotID, Without(snaps, ids), id) == Without(snaps, ids + [id])
  {
    if snaps != [] {
      var s, rest := snaps[0], Without(snaps[1..], ids);
      NotInTail(snaps);
      WithoutOneMore(snaps[1..], ids, id);
      WithoutMembers(snaps[1..], ids);
      OneMoreHead(s, rest, ids, id);
      assert Without(snaps, ids) == (if s.id in ids then [] else [s]) + rest;
    }
  }

  lemma OneMoreHead(s: Snapshot, rest: seq<Snapshot>, ids: seq<string>, id: string)
    requires forall t | t in rest :: t.id != s.id
    ensures Drop(SnapshotID, (if s.id in ids then [] else [s]) + rest, id)
            == (if s.id in ids + [id] then [] else [s]) + Drop(SnapshotID, rest, id)
  {
    if s.id in ids {
      assert [] + rest == rest;
    } else if s.id == id {
      DropHead(s, rest);
    } else {
      DropAfterHead(s, rest, id);
    }
  }

  lemma DropHead(s: Snapshot, rest: seq<Snapshot>)
    requires forall t | t in rest :: t.id != s.id
    ensures Drop(SnapshotID, [s] + rest, s.id) == rest == Drop(SnapshotID, rest, s.id)
  {
    IndexIs(SnapshotID, [s] + rest, s.id, 0);
    IndexIs(SnapshotID, rest, s.id, |rest|);
  }

  lemma DropAfterHead(s: Snapshot, rest: seq<Snapshot>, id: string)
    requires s.id != id
    ensures Drop(SnapshotID, [s] + rest, id) == [s] + Drop(SnapshotID, rest, id)
  {
    var xs := [s] + rest;
    assert xs[1..] == rest;
    var i := Index(SnapshotID, rest, id);
    assert Index(SnapshotID, xs, id) == i + 1;
    if i < |rest| {
      assert xs[..i + 1] == [s] + rest[..i] && xs[i + 2..] == rest[i + 1..];
    }
  }

  lemma {:induction false} DropAllIsWithout(p: Proc, ids: seq<string>)
    requires Distinct(SnapshotID, p.memory.snapshots)
    ensures DropAll(p, ids).memory == p.memory.(snapshots := Without(p.memory.snapshots, ids))
  {
    if ids == [] {
      WithoutNothing(p.memory.snapshots, []);
    } else {
      var n := |ids| - 1;
      assert ids == ids[..n] + [ids[n]];
      DropAllIsWithout(p, ids[..n]);
      WithoutOneMore(p.memory.snapshots, ids[..n], ids[n]);
    }
  }

  lemma {:induction false} WithoutMembers(snaps: seq<Snapshot>, ids: seq<string>)
    ensures forall s :: s in Without(snaps, ids) <==> s in snaps && s.id !in ids
    ensures Distinct(SnapshotID, snaps) ==> Distinct(SnapshotID, Without(snaps, ids))
  {
    if snaps != [] {
      WithoutMembers(snaps[1..], ids);
      if Distinct(SnapshotID, snaps) {
        NotInTail(snaps);
      }
    }
  }

  lemma FindWithout(snaps: seq<Snapshot>, ids: seq<string>, id: string)
    requires Distinct(SnapshotID, snaps)
    ensures Find(SnapshotID, Without(snaps, ids), id) == if id in ids then None else Find(SnapshotID, snaps, id)
  {
    WithoutMembers(snaps, ids);
    var r := Without(snaps, ids);
    if id in ids {
      FindNone(SnapshotID, r, id);
    } else if Find(SnapshotID, snaps, id).Some? {
      FindIsMember(SnapshotID, r, Find(SnapshotID, snaps, id).value);
    } else {
      FindNone(SnapshotID, snaps, id);
      FindNone(SnapshotID, r, id);
    }
  }

  lemma MembersElsewhere(r: Resources, g: GroupSnapshot, h: GroupSnapshot, id: string)
    requires GroupsOk(r) && g in r.groups && h in r.groups && g.id != h.id
    ensures !(id in g.snapshotIDs && IsMember(r.snapshots, h.id, id))
  {
    assert id in g.snapshotIDs <==> IsMember(r.snapshots, g.id, id);
  }

  /** No snapshot belongs to two groups. */
  lemma GroupsDisjoint(r: Resources, g: GroupSnapshot, h: GroupSnapshot, id: string)
    requires GroupsOk(r) && g in r.groups && h in r.groups
    requires id in g.snapshotIDs && id in h.snapshotIDs
    ensures g == h
  {
    assert IsMember(r.snapshots, g.id, id) && IsMember(r.snapshots, h.id, id);
    FindIsMember(GroupID, r.groups, g);
    FindIsMember(GroupID, r.groups, h);
  }

  /** Deleting a group removes exactly the snapshots that carry its ID, and keeps the others in order. */
  lemma DeleteGroupRemovesMembers(p: Proc, g: GroupSnapshot)
    requires ProcOk(p) && g in p.memory.groups
    ensures var q := DeleteGroup(p, g.id).proc;
            && q.cell == Some(q.memory)
            && q.memory.snapshots == Without(p.memory.snapshots, g.snapshotIDs)
            && q.memory.groups == Drop(GroupID, p.memory.groups, g.id)
            && (forall s :: s in q.memory.snapshots <==> s in p.memory.snapshots && s.groupSnapshotID != g.id)
  {
    FindIsMember(GroupID, p.memory.groups, g);
    DropAllIsWithout(p, g.snapshotIDs);
    WithoutMembers(p.memory.snapshots, g.snapshotIDs);
    forall s | s in p.memory.snapshots ensures s.id in g.snapshotIDs <==> s.groupSnapshotID == g.id {
      FindIsMember(SnapshotID, p.memory.snapshots, s);
      assert s.id in g.snapshotIDs <==> IsMember(p.memory.snapshots, g.id, s.id);
    }
  }

  lemma DeleteGroupOk(p: Proc, gid: string)
    requires ProcOk(p)
    ensures ProcOk(DeleteGroup(p, gid).proc)
  {
    var found := Find(GroupID, p.memory.groups, gid);
    if gid != "" && found.Some? {
      var g := found.value;
      var snaps, q := p.memory.snapshots, DeleteGroup(p, gid).proc;
      DeleteGroupRemovesMembers(p, g);
      WithoutMembers(snaps, g.snapshotIDs);
      DropMembers(GroupID, p.memory.groups, gid);
      forall h | h in q.memory.groups ensures GroupOk(q.memory.snapshots, h) {
        forall id | IsMember(snaps, h.id, id) || IsMember(q.memory.snapshots, h.id, id)
          ensures Find(SnapshotID, snaps, id) == Find(SnapshotID, q.memory.snapshots, id)
        {
          FindWithout(snaps, g.snapshotIDs, id);
          MembersElsewhere(p.memory, g, h, id);
        }
        GroupOkFrame(snaps, q.memory.snapshots, h);
      }
    }
  }

  // ---- runs ----

  /** UUIDs are new, and member snapshots are deleted only through their group. */
  ghost predicate Proper(p: Proc, op: Op) {
    match op
    case SnapCreate(_, _, env) => FreshSnapshot(Reload(p.memory, p.cell), env.uuid)
    case SnapDelete(id) => forall g | g in p.memory.groups :: id !in g.snapshotIDs
    case GroupCreate(_, vols, env) => FreshCall(Reload(p.memory, p.cell), vols, env)
    case _ => true
  }

  lemma GetGroupOk(p: Proc, gid: string, ids: seq<string>)
    requires ProcOk(p)
    ensures ProcOk(GetGroup(p, gid, ids).proc)
  {
    var i := Index(GroupID, p.memory.groups, gid);
    if gid != "" && i < |p.memory.groups| {
      var was := p.memory.groups[i];
      ComparedFacts(was.snapshotIDs, ids);
      SortedGroupOk(p.memory, i, was.(snapshotIDs := Compared(was.snapshotIDs, ids)));
    }
  }

  lemma SnapshotOpsOk(cfg: Config, p: Proc, op: Op)
    requires ProcOk(p) && Proper(p, op) && (op.SnapCreate? || op.SnapDelete?)
    ensures ProcOk(Perform(cfg, p, op))
  {
    match op
    case SnapCreate(name, vol, env) =>
      var r := CreateSnapshot(cfg, p, name, vol, env);
      ReloadedOk(p);
      if r.reply.OneSnapshot? && r.reply.snap.id == env.uuid && r.proc.cell == Some(r.proc.memory) {
        forall g | g in Reloaded(p).memory.groups ensures g.id != "" {
          assert GroupOk(Reloaded(p).memory.snapshots, g);
        }
        var size := r.reply.snap.sizeBytes;
        var snap := Snapshot(name, env.uuid, vol, SnapshotPath(cfg, env.uuid), env.time, size, true, "");
        PutKeepsGroups(Reloaded(p).memory, snap);
      }
    case SnapDelete(id) => DropKeepsGroupsExactly(p.memory, id);
  }

  lemma OpOk(cfg: Config, p: Proc, op: Op)
    requires ProcOk(p) && Proper(p, op)
    ensures ProcOk(Perform(cfg, p, op))
  {
    match op
    case GroupCreate(name, vols, env) => CreateGroupOk(cfg, p, name, vols, env);
    case GroupDelete(gid) => DeleteGroupOk(p, gid);
    case GroupGet(gid, ids) => GetGroupOk(p, gid, ids);
    case VolumeCall(saves, vs) =>
      ReloadedOk(p);
      forall g | g in Reloaded(p).memory.groups ensures GroupOk(Reloaded(p).memory.snapshots, g) {}
    case _ => SnapshotOpsOk(cfg, p, op);
  }

  ghost predicate ProperRun(cfg: Config, p: Proc, ops: seq<Op>)
    decreases |ops|
  {
    ops == [] || (Proper(p, ops[0]) && ProperRun(cfg, Perform(cfg, p, ops[0]), ops[1..]))
  }

  ghost function RunOps(cfg: Config, p: Proc, ops: seq<Op>): Proc
    requires ProperRun(cfg, p, ops)
    decreases |ops|
  {
    if ops == [] then p else RunOps(cfg, Perform(cfg, p, ops[0]), ops[1..])
  }

  /**
   * In every run, in memory and in the cell, each group's IDs resolve to exactly the snapshots
   * that carry its ID, and their volumes are the group's source volumes as a multiset.
   */
  lemma {:induction false} RunKeepsGroups(cfg: Config, p: Proc, ops: seq<Op>)
    requires ProcOk(p) && ProperRun(cfg, p, ops)
    ensures ProcOk(RunOps(cfg, p, ops))
    decreases |ops|
  {
    if ops != [] {
      OpOk(cfg, p, ops[0]);
      RunKeepsGroups(cfg, Perform(cfg, p, ops[0]), ops[1..]);
    }
  }

  // ---- the volumes that a snapshot call writes back ----

  function Stored(p: Proc): Resources {
    match p.cell case None => NOTHING case Some(r) => r
  }

  /** The call deletes something that this process remembers, and saves without a reload before. */
  predicate Rewrites(cfg: Config, p: Proc, op: Op) {
    match op
    case SnapDelete(id) => !cfg.ephemeral && id != "" && Find(SnapshotID, p.memory.snapshots, id).Some?
    case GroupDelete(gid) => gid != "" && Find(GroupID, p.memory.groups, gid).Some?
    case _ => false
  }

  lemma {:induction false} MembersKeepVolumes(cfg: Config, p: Proc, name: string, vols: seq<string>,
                                              env: GroupEnv, k: nat)
    requires Supplied(vols, env) && 0 < k <= |vols|
    ensures var q := SnapshotMembers(cfg, p, name, vols, env, k).proc;
            Stored(q).volumes == Stored(p).volumes && Reloaded(q) == q
            && (q.cell.None? ==> p.cell.None? && q.memory.groups == p.memory.groups)
  {
    if k == 1 {
      assert SnapshotMembers(cfg, p, name, vols, env, 0) == Partial(p, [], None);
    } else {
      MembersKeepVolumes(cfg, p, name, vols, env, k - 1);
    }
  }

  lemma {:induction false} DropAllKeepsMemory(p: Proc, ids: seq<string>)
    ensures DropAll(p, ids).memory.volumes == p.memory.volumes && DropAll(p, ids).memory.groups == p.memory.groups
  {
    if ids != [] {
      DropAllKeepsMemory(p, ids[..|ids| - 1]);
    }
  }

  /**
   * Creating and getting snapshots and groups keeps the stored volumes, whatever the process remembers. Deleting a
   * snapshot or a group that is found keeps them exactly if the process remembers the volumes that are stored.
   */
  lemma OpKeepsVolumes(cfg: Config, p: Proc, op: Op)
    requires !op.VolumeCall? && (op.GroupCreate? ==> Supplied(op.vols, op.genv))
    ensures Stored(Perform(cfg, p, op)).volumes == Stored(p).volumes
            <==> (Rewrites(cfg, p, op) ==> p.memory.volumes == Stored(p).volumes)
  {
    match op
    case GroupCreate(name, vols, env) =>
      if vols != [] {
        MembersKeepVolumes(cfg, p, name, vols, env, |vols|);
      }
    case GroupDelete(gid) =>
      var g := Find(GroupID, p.memory.groups, gid);
      if g.Some? {
        DropAllKeepsMemory(p, g.value.snapshotIDs);
      }
    case _ =>
  }

  /** A process that remembers the stored volumes still does after each of its own calls. */
  lemma OpKeepsKnowledge(cfg: Config, p: Proc, op: Op)
    requires !op.VolumeCall? && (op.GroupCreate? ==> Supplied(op.vols, op.genv))
    requires p.memory.volumes == Stored(p).volumes
    ensures var q := Perform(cfg, p, op); q.memory.volumes == Stored(q).volumes == Stored(p).volumes
  {
    OpKeepsVolumes(cfg, p, op);
    match op
    case GroupCreate(name, vols, env) =>
      if vols != [] {
        MembersKeepVolumes(cfg, p, name, vols, env, |vols|);
      }
    case _ =>
  }

  /** The two copies of a group list the same snapshots and volumes, perhaps in another order. */
  ghost predicate Alike(g: GroupSnapshot, h: GroupSnapshot) {
    && multiset(g.snapshotIDs) == multiset(h.snapshotIDs) && multiset(g.sourceVolumeIDs) == multiset(h.sourceVolumeIDs)
    && g == h.(snapshotIDs := g.snapshotIDs, sourceVolumeIDs := g.sourceVolumeIDs)
  }

  /** The process remembers what is stored, up to the order within each group. */
  ghost predicate InStep(p: Proc) {
    var r := Stored(p);
    && p.memory.volumes == r.volumes && p.memory.snapshots == r.snapshots
    && |p.memory.groups| == |r.groups|
    && forall i | 0 <= i < |r.groups| :: Alike(p.memory.groups[i], r.groups[i])
  }

  lemma SameIsInStep(p: Proc)
    requires p.memory == Stored(p)
    ensures InStep(p)
  {
  }

  lemma SortedInStep(p: Proc, i: nat, g: GroupSnapshot)
    requires InStep(p) && i < |p.memory.groups| && Alike(g, p.memory.groups[i])
    ensures InStep(p.(memory := p.memory.(groups := p.memory.groups[i := g])))
  {
  }

  lemma SnapCreateInStep(cfg: Config, p: Proc, name: string, vol: string, env: SnapshotEnv)
    requires InStep(p) && (p.cell.None? ==> p.memory.groups == [])
    ensures InStep(CreateSnapshot(cfg, p, name, vol, env).proc)
  {
    var q := CreateSnapshot(cfg, p, name, vol, env).proc;
    if q != p {
      SameIsInStep(q);
    }
  }

  lemma DropInStep(p: Proc, id: string)
    requires InStep(p)
    ensures InStep(DropSnapshot(p, id))
  {
    if Find(SnapshotID, p.memory.snapshots, id).Some? {
      SameIsInStep(DropSnapshot(p, id));
    } else {
      assert DropSnapshot(p, id) == p;
    }
  }

  lemma GroupCreateInStep(cfg: Config, p: Proc, name: string, vols: seq<string>, env: GroupEnv)
    requires InStep(p) && (p.cell.None? ==> p.memory.groups == []) && Supplied(vols, env)
    ensures InStep(CreateGroup(cfg, p, name, vols, env).proc)
  {
    if name != "" && vols != [] {
      var i := Index(GroupName, p.memory.groups, name);
      if i < |p.memory.groups| {
        var was := p.memory.groups[i];
        ComparedFacts(was.sourceVolumeIDs, vols);
        SortedInStep(p, i, was.(sourceVolumeIDs := Compared(was.sourceVolumeIDs, vols)));
      } else {
        MembersKeepVolumes(cfg, p, name, vols, env, |vols|);
        SameIsInStep(CreateGroup(cfg, p, name, vols, env).proc);
      }
    }
  }

  lemma GroupDeleteInStep(p: Proc, gid: string)
    requires InStep(p)
    ensures InStep(DeleteGroup(p, gid).proc)
  {
    if gid != "" && Find(GroupID, p.memory.groups, gid).Some? {
      SameIsInStep(DeleteGroup(p, gid).proc);
    }
  }

  lemma GroupGetInStep(p: Proc, gid: string, ids: seq<string>)
    requires InStep(p)
    ensures InStep(GetGroup(p, gid, ids).proc)
  {
    var i := Index(GroupID, p.memory.groups, gid);
    if gid != "" && i < |p.memory.groups| {
      var was := p.memory.groups[i];
      ComparedFacts(was.snapshotIDs, ids);
      SortedInStep(p, i, was.(snapshotIDs := Compared(was.snapshotIDs, ids)));
    }
  }

  /** A process that is in step is still in step after each of its own calls. */
  lemma OpKeepsInStep(cfg: Config, p: Proc, op: Op)
    requires InStep(p) && (p.cell.None? ==> p.memory.groups == []) && (op.GroupCreate? ==> Supplied(op.vols, op.genv))
    ensures InStep(Perform(cfg, p, op))
  {
    match op
    case SnapCreate(name, vol, env) => SnapCreateInStep(cfg, p, name, vol, env);
    case SnapDelete(id) => DropInStep(p, id);
    case GroupCreate(name, vols, env) => GroupCreateInStep(cfg, p, name, vols, env);
    case GroupDelete(gid) => GroupDeleteInStep(p, gid);
    case GroupGet(gid, ids) => GroupGetInStep(p, gid, ids);
    case VolumeCall(saves, vs) =>
      SameIsInStep(Reloaded(p));
      SameIsInStep(Saved(Reloaded(p).memory.(volumes := vs)));
  }

  // ---- the other snapshots and groups that a deletion writes back ----

  /** The snapshots that the call deletes. */
  function DeletedIDs(p: Proc, op: Op): seq<string> {
    match op
    case SnapDelete(id) => [id]
    case GroupDelete(gid) =>
      (match Find(GroupID, p.memory.groups, gid) case Some(g) => g.snapshotIDs case None => [])
    case _ => []
  }

  predicate DeletesGroup(op: Op, gid: string) { op.GroupDelete? && op.gid == gid }

  ghost predicate HasGroup(r: Resources, g: GroupSnapshot) { exists h | h in r.groups :: Alike(h, g) }

  /** The two hold the same snapshots and groups, apart from those that the call deletes. */
  ghost predicate SameOthers(p: Proc, op: Op, a: Resources, b: Resources) {
    && (forall s: Snapshot | s.id !in DeletedIDs(p, op) :: s in a.snapshots <==> s in b.snapshots)
    && forall g: GroupSnapshot | !DeletesGroup(op, g.id) :: HasGroup(a, g) <==> HasGroup(b, g)
  }

  /** The other snapshots and groups are those of the memory, and those that the call deletes are gone. */
  ghost predicate OnlyOthers(p: Proc, op: Op, r: Resources) {
    && SameOthers(p, op, r, p.memory)
    && (forall s: Snapshot | s in r.snapshots :: s.id !in DeletedIDs(p, op))
    && forall g: GroupSnapshot | g in r.groups :: !DeletesGroup(op, g.id)
  }

  lemma GroupsDropped(p: Proc, r: Resources, gid: string)
    requires Distinct(GroupID, p.memory.groups) && r.groups == Drop(GroupID, p.memory.groups, gid)
    ensures forall g: GroupSnapshot | g.id != gid :: HasGroup(r, g) <==> HasGroup(p.memory, g)
    ensures forall g: GroupSnapshot | g in r.groups :: g.id != gid
  {
    DropMembers(GroupID, p.memory.groups, gid);
  }

  lemma MembersDropped(p: Proc, g: GroupSnapshot)
    requires ProcOk(p) && g in p.memory.groups
    ensures var r := DeleteGroup(p, g.id).proc.memory;
            && (forall s: Snapshot | s.id !in g.snapshotIDs :: s in r.snapshots <==> s in p.memory.snapshots)
            && forall s: Snapshot | s in r.snapshots :: s.id !in g.snapshotIDs
  {
    DeleteGroupRemovesMembers(p, g);
    WithoutMembers(p.memory.snapshots, g.snapshotIDs);
  }

  lemma GroupDeleteStores(p: Proc, gid: string, g: GroupSnapshot)
    requires ProcOk(p) && gid != "" && Find(GroupID, p.memory.groups, gid) == Some(g)
    ensures OnlyOthers(p, GroupDelete(gid), Stored(DeleteGroup(p, gid).proc))
  {
    assert g in p.memory.groups && g.id == gid;
    MembersDropped(p, g);
    DropAllKeepsMemory(p, g.snapshotIDs);
    GroupsDropped(p, DeleteGroup(p, gid).proc.memory, gid);
    assert DeletedIDs(p, GroupDelete(gid)) == g.snapshotIDs;
  }

  lemma RewriteStores(cfg: Config, p: Proc, op: Op)
    requires ProcOk(p) && Rewrites(cfg, p, op)
    ensures OnlyOthers(p, op, Stored(Perform(cfg, p, op)))
  {
    match op
    case SnapDelete(id) => DropMembers(SnapshotID, p.memory.snapshots, id);
    case GroupDelete(gid) => GroupDeleteStores(p, gid, Find(GroupID, p.memory.groups, gid).value);
  }

  lemma SameOthersTransfer(p: Proc, op: Op, a: Resources, b: Resources, c: Resources)
    requires SameOthers(p, op, a, b)
    ensures SameOthers(p, op, a, c) <==> SameOthers(p, op, b, c)
  {
  }

  /**
   * A deletion keeps all the other stored snapshots and groups, and brings none back, exactly if the process
   * remembers those that are stored, the groups up to the order of their lists; a process in step does.
   */
  lemma RewriteKeepsOthers(cfg: Config, p: Proc, op: Op)
    requires ProcOk(p) && Rewrites(cfg, p, op)
    ensures SameOthers(p, op, Stored(Perform(cfg, p, op)), Stored(p)) <==> SameOthers(p, op, p.memory, Stored(p))
    ensures InStep(p) ==> SameOthers(p, op, p.memory, Stored(p))
  {
    RewriteStores(cfg, p, op);
    SameOthersTransfer(p, op, Stored(Perform(cfg, p, op)), p.memory, Stored(p));
    if InStep(p) {
      InStepOthers(p, op);
    }
  }

  lemma InStepOthers(p: Proc, op: Op)
    requires InStep(p)
    ensures SameOthers(p, op, p.memory, Stored(p))
  {
    forall g ensures HasGroup(p.memory, g) <==> HasGroup(Stored(p), g) {
      InStepGroups(p, g);
    }
  }

  lemma InStepGroups(p: Proc, g: GroupSnapshot)
    requires InStep(p)
    ensures HasGroup(p.memory, g) <==> HasGroup(Stored(p), g)
  {
    var hs, ks := p.memory.groups, Stored(p).groups;
    if HasGroup(p.memory, g) {
      var i :| 0 <= i < |hs| && Alike(hs[i], g);
      assert Alike(ks[i], g) && ks[i] in ks;
    }
    if HasGroup(Stored(p), g) {
      var i :| 0 <= i < |ks| && Alike(ks[i], g);
      assert Alike(hs[i], g) && hs[i] in hs;
    }
  }

  ghost function SeenBy(p: Proc, mounts: map<string, string>): Sys { Sys(Reload(p.memory, p.cell), mounts) }

  /**
   * Seen by the volume RPCs, a snapshot or group call only replaces snapshots and groups, as Driver.SnapshotCall
   * does, exactly under the same condition; so it does for a process in step.
   */
  lemma OpIsSnapshotCall(cfg: Config, p: Proc, op: Op, mounts: map<string, string>)
    requires !op.VolumeCall? && (op.GroupCreate? ==> Supplied(op.vols, op.genv))
    ensures var after := SeenBy(Perform(cfg, p, op), mounts);
            after == Step(cfg, SeenBy(p, mounts), SnapshotCall(after.res.snapshots, after.res.groups))
            <==> (Rewrites(cfg, p, op) ==> p.memory.volumes == Stored(p).volumes)
    ensures InStep(p) ==> p.memory.volumes == Stored(p).volumes
  {
    var after := SeenBy(Perform(cfg, p, op), mounts);
    OpKeepsVolumes(cfg, p, op);
    ApplyFew(SeenBy(p, mounts), [Replace(after.res.snapshots, after.res.groups)]);
  }
}
