/** Gang scheduling: invariants of every run of the coscheduling plugin. */
module Gang {
  import opened Common
  import opened Coschedule
  import Text

  predicate Holds(nodes: seq<seq<Pod>>, p: Pod) { exists n | n in nodes :: p in n }

  lemma {:induction false} HoldsFreed(nodes: seq<seq<Pod>>, gone: set<nat>, p: Pod)
    ensures Holds(Freed(nodes, gone), p) <==> Holds(nodes, p) && p.uid !in gone
  {
    if nodes != [] {
      var front, n := nodes[..|nodes| - 1], nodes[|nodes| - 1];
      HoldsFreed(front, gone, p);
      FilterMembers(n, Stays(gone));
      assert nodes == front + [n];
      assert Freed(nodes, gone) == Freed(front, gone) + [Filter(n, Stays(gone))];
    }
  }

  lemma HoldsPlaced(nodes: seq<seq<Pod>>, i: nat, q: Pod, p: Pod)
    requires i < |nodes|
    ensures Holds(nodes[i := nodes[i] + [q]], p) <==> Holds(nodes, p) || p == q
  {
    var after := nodes[i := nodes[i] + [q]];
    if Holds(nodes, p) {
      var n :| n in nodes && p in n;
      var j :| 0 <= j < |nodes| && nodes[j] == n;
      assert after[j] in after && p in after[j];
    }
    if p == q {
      assert after[i] in after && q in after[i];
    }
    if Holds(after, p) {
      var n :| n in after && p in n;
      var j :| 0 <= j < |after| && after[j] == n;
      assert nodes[j] in nodes;
    }
  }

  // ---- counting ----

  lemma {:induction false} CountDrop(pods: seq<Pod>, gone: set<nat>, name: string, ns: string)
    ensures CountOn(Filter(pods, Stays(gone)), name, ns) <= CountOn(pods, name, ns)
    ensures (forall p | p in pods && p.uid in gone :: !Counted(p, name, ns)) ==>
              CountOn(Filter(pods, Stays(gone)), name, ns) == CountOn(pods, name, ns)
  {
    if pods != [] {
      var front, p := pods[..|pods| - 1], pods[|pods| - 1];
      CountDrop(front, gone, name, ns);
      assert pods == front + [p];
      var kept := Filter(front, Stays(gone));
      if p.uid !in gone {
        assert Filter(pods, Stays(gone)) == kept + [p];
        assert (kept + [p])[..|kept|] == kept;
      } else {
        assert Filter(pods, Stays(gone)) == kept;
      }
    }
  }

  lemma {:induction false} AssignedDrop(nodes: seq<seq<Pod>>, gone: set<nat>, name: string, ns: string)
    ensures Assigned(Freed(nodes, gone), name, ns) <= Assigned(nodes, name, ns)
    ensures (forall p | Holds(nodes, p) && p.uid in gone :: !Counted(p, name, ns)) ==>
              Assigned(Freed(nodes, gone), name, ns) == Assigned(nodes, name, ns)
  {
    if nodes != [] {
      var front, n := nodes[..|nodes| - 1], nodes[|nodes| - 1];
      AssignedDrop(front, gone, name, ns);
      CountDrop(n, gone, name, ns);
      assert nodes == front + [n];
      var kept := Freed(front, gone);
      assert (kept + [Filter(n, Stays(gone))])[..|kept|] == kept;
      if forall p | Holds(nodes, p) && p.uid in gone :: !Counted(p, name, ns) {
        forall p | Holds(front, p) && p.uid in gone ensures !Counted(p, name, ns) {
          assert Holds(nodes, p);
        }
        forall p | p in n && p.uid in gone ensures !Counted(p, name, ns) {
          assert Holds(nodes, p);
        }
      }
    }
  }

  lemma {:induction false} AssignedPlaced(nodes: seq<seq<Pod>>, i: nat, q: Pod, name: string, ns: string)
    requires i < |nodes|
    ensures Assigned(nodes[i := nodes[i] + [q]], name, ns)
            == Assigned(nodes, name, ns) + if Counted(q, name, ns) then 1 else 0
  {
    var front, n := nodes[..|nodes| - 1], nodes[|nodes| - 1];
    var after := nodes[i := nodes[i] + [q]];
    if i == |nodes| - 1 {
      assert after[..|nodes| - 1] == front;
      assert (n + [q])[..|n|] == n;
    } else {
      AssignedPlaced(front, i, q, name, ns);
      assert after[..|nodes| - 1] == front[i := front[i] + [q]];
    }
  }

  lemma {:induction false} CountNone(pods: seq<Pod>, name: string, ns: string)
    requires forall p | p in pods :: !Counted(p, name, ns)
    ensures CountOn(pods, name, ns) == 0
  {
    if pods != [] {
      assert pods[|pods| - 1] in pods;
      CountNone(pods[..|pods| - 1], name, ns);
    }
  }

  /** A group none of whose pods holds a node counts zero. */
  lemma {:induction false} AssignedNone(nodes: seq<seq<Pod>>, name: string, ns: string)
    requires forall p | Holds(nodes, p) :: !Counted(p, name, ns)
    ensures Assigned(nodes, name, ns) == 0
  {
    if nodes != [] {
      var front, n := nodes[..|nodes| - 1], nodes[|nodes| - 1];
      assert nodes == front + [n];
      forall p | Holds(front, p) ensures !Counted(p, name, ns) {
        assert Holds(nodes, p);
      }
      forall p | p in n ensures !Counted(p, name, ns) {
        assert Holds(nodes, p);
      }
      AssignedNone(front, name, ns);
      CountNone(n, name, ns);
    }
  }

  // ---- names ----

  /** Namespaces have no slash, so a full name tells the namespace and the group. */
  lemma FullNameTells(ns: string, name: string, ns1: string, name1: string)
    requires '/' !in ns && '/' !in ns1
    ensures ns + "/" + name == ns1 + "/" + name1 <==> ns == ns1 && name == name1
  {
    Text.CutAt(ns, '/', name);
    Text.CutAt(ns1, '/', name1);
  }

  // ---- the invariant of all runs ----

  function Quorum(s: Sys, name: string, ns: string): int
    requires (ns, name) in s.groups
  {
    s.groups[(ns, name)].minReplicas
  }

  /** A waiting pod holds a node, is in a known group, and that group is short of its quorum. */
  predicate WaitsRightly(s: Sys, w: Pod) {
    && Holds(s.nodes, w) && w.labels.Some? && w.node != "" && '/' !in w.ns
    && LabelOf(w) != "" && (w.ns, LabelOf(w)) in s.groups
    && Assigned(s.nodes, LabelOf(w), w.ns) < Quorum(s, LabelOf(w), w.ns)
  }

  ghost predicate Safe(s: Sys) {
    && (forall w | w in s.waiting :: WaitsRightly(s, w))
    && (forall p, q | Holds(s.nodes, p) && Holds(s.nodes, q) && p.uid == q.uid :: p == q)
  }

  lemma DropKeepsSafe(s: Sys, gone: set<nat>)
    requires Safe(s)
    ensures Safe(Drop(s, gone))
  {
    var s1 := Drop(s, gone);
    FilterMembers(s.waiting, Stays(gone));
    forall p ensures Holds(s1.nodes, p) <==> Holds(s.nodes, p) && p.uid !in gone {
      HoldsFreed(s.nodes, gone, p);
    }
    forall w | w in s1.waiting ensures WaitsRightly(s1, w) {
      assert WaitsRightly(s, w);
      AssignedDrop(s.nodes, gone, LabelOf(w), w.ns);
    }
  }

  lemma ScheduleKeepsSafe(s: Sys, p: Pod, i: nat, node: string)
    requires Safe(s) && Possible(s, Schedule(p, i, node))
    ensures Safe(ScheduleOf(s, p, i, node))
  {
    var s1, q := ScheduleOf(s, p, i, node), p.(node := node);
    if PermitOf(s, p).0 != Unschedulable {
      var g := GetPodGroup(s.groups, p).value;
      FilterMembers(s.waiting, IsHeld(p, g));
      forall r ensures Holds(s1.nodes, r) <==> Holds(s.nodes, r) || r == q {
        HoldsPlaced(s.nodes, i, q, r);
      }
      forall w | w in s1.waiting ensures WaitsRightly(s1, w) {
        AssignedPlaced(s.nodes, i, q, LabelOf(w), w.ns);
        if w != q || w in s.waiting {
          assert WaitsRightly(s, w);
        }
      }
      forall r | Holds(s.nodes, r) ensures r.uid != q.uid {
      }
    }
  }

  lemma NextKeepsSafe(s: Sys, e: Event)
    requires Safe(s) && Possible(s, e)
    ensures Safe(Next(s, e)) && Next(s, e).groups == s.groups
  {
    match e
    case Schedule(p, i, node) => ScheduleKeepsSafe(s, p, i, node);
    case Timeout(uid) => DropKeepsSafe(s, {uid});
    case Delete(uid) => DropKeepsSafe(s, {uid});
    case PostFilter(p) =>
      if GetPodGroup(s.groups, p).Some? {
        DropKeepsSafe(s, Uids(Filter(s.waiting, IsRejected(p, GetPodGroup(s.groups, p).value))));
        var rejected := Filter(s.waiting, IsRejected(p, GetPodGroup(s.groups, p).value));
        SameSafe(s, PostFilterOf(s, p), Drop(s, Uids(rejected)));
      }
    case PreFilter(p) => SameSafe(s, PreFilterOf(s, p).1, s);
    case Sync(_) => SameSafe(s, Next(s, e), s);
    case Expire(_, _) => SameSafe(s, Next(s, e), s);
  }

  lemma SameSafe(s: Sys, s1: Sys, s2: Sys)
    requires Safe(s) && Safe(s2) && s1.groups == s.groups && s2.groups == s.groups
    requires (s1.nodes, s1.waiting) == (s.nodes, s.waiting) || (s1.nodes, s1.waiting) == (s2.nodes, s2.waiting)
    ensures Safe(s1)
  {
    if (s1.nodes, s1.waiting) == (s.nodes, s.waiting) {
      forall w | w in s1.waiting ensures WaitsRightly(s1, w) {
        assert WaitsRightly(s, w);
      }
    } else {
      forall w | w in s1.waiting ensures WaitsRightly(s1, w) {
        assert WaitsRightly(s2, w);
      }
    }
  }

  ghost predicate Feasible(s: Sys, events: seq<Event>)
    decreases |events|
  {
    events == [] || (Possible(s, events[0]) && Feasible(Next(s, events[0]), events[1..]))
  }

  function Run(s: Sys, events: seq<Event>): Sys
    requires Feasible(s, events)
    decreases |events|
  {
    if events == [] then s else Run(Next(s, events[0]), events[1..])
  }

  /** In every run, a group with a waiting pod has fewer pods holding nodes than its quorum. */
  lemma {:induction false} RunKeepsGang(s: Sys, events: seq<Event>)
    requires Safe(s) && Feasible(s, events)
    ensures Safe(Run(s, events)) && Run(s, events).groups == s.groups
    decreases |events|
  {
    if events != [] {
      NextKeepsSafe(s, events[0]);
      RunKeepsGang(Next(s, events[0]), events[1..]);
    }
  }

  // ---- releases ----

  /** A pod of a group with a name is permitted, or a waiting pod is allowed, only when the quorum then holds nodes. */
  lemma ReleaseAtQuorum(s: Sys, p: Pod, i: nat, node: string)
    requires Safe(s) && Possible(s, Schedule(p, i, node))
    ensures var s1 := ScheduleOf(s, p, i, node);
            && (forall w | w in s.waiting && w !in s1.waiting ::
                  Assigned(s1.nodes, LabelOf(w), w.ns) >= Quorum(s, LabelOf(w), w.ns))
            && (LabelOf(p) != "" && s1 != s && p.(node := node) !in s1.waiting ==>
                  (p.ns, LabelOf(p)) in s.groups && Assigned(s1.nodes, LabelOf(p), p.ns) >= Quorum(s, LabelOf(p), p.ns))
            && (forall w | w in s.waiting :: Holds(s1.nodes, w))
  {
    var s1, q := ScheduleOf(s, p, i, node), p.(node := node);
    assert forall w | w in s.waiting :: WaitsRightly(s, w);
    if PermitOf(s, p).0 != Unschedulable {
      var g := GetPodGroup(s.groups, p).value;
      FilterMembers(s.waiting, IsHeld(p, g));
      AssignedPlaced(s.nodes, i, q, g.name, p.ns);
      forall w | w in s.waiting
        ensures Holds(s1.nodes, w) && (w !in s1.waiting ==> w.ns == p.ns && LabelOf(w) == g.name)
      {
        HoldsPlaced(s.nodes, i, q, w);
        FullNameTells(w.ns, LabelOf(w), p.ns, g.name);
      }
    }
  }

  /** A waiting pod that is neither allowed nor still waiting has given up its node. */
  lemma OtherwiseGivesUp(s: Sys, e: Event, w: Pod)
    requires Safe(s) && Possible(s, e) && !e.Schedule?
    requires w in s.waiting && w !in Next(s, e).waiting
    ensures !Holds(Next(s, e).nodes, w)
  {
    match e
    case PostFilter(p) =>
      if GetPodGroup(s.groups, p).Some? {
        var gone := Uids(Filter(s.waiting, IsRejected(p, GetPodGroup(s.groups, p).value)));
        FilterMembers(s.waiting, Stays(gone));
        HoldsFreed(s.nodes, gone, w);
      }
    case Timeout(uid) =>
      FilterMembers(s.waiting, Stays({uid}));
      HoldsFreed(s.nodes, {uid}, w);
    case Delete(uid) =>
      FilterMembers(s.waiting, Stays({uid}));
      HoldsFreed(s.nodes, {uid}, w);
    case _ =>
  }

  /** Whom PostFilter rejects: nobody at or above the quorum, below it exactly the waiting pods of the group. */
  lemma PostFilterAtQuorum(s: Sys, p: Pod)
    requires Safe(s) && GetPodGroup(s.groups, p).Some?
    ensures var g, s1 := GetPodGroup(s.groups, p).value, PostFilterOf(s, p);
            && (g.name == "" || Assigned(s.nodes, g.name, p.ns) >= g.minReplicas ==>
                  s1.nodes == s.nodes && s1.waiting == s.waiting)
            && (g.name != "" && Assigned(s.nodes, g.name, p.ns) < g.minReplicas ==>
                  (forall w :: w in s1.waiting <==> w in s.waiting && !(LabelOf(w) == g.name && w.ns == p.ns))
                  && (forall q :: Holds(s1.nodes, q) <==>
                        Holds(s.nodes, q) && !(q in s.waiting && LabelOf(q) == g.name && q.ns == p.ns)))
  {
    var g := GetPodGroup(s.groups, p).value;
    var rejected := Filter(s.waiting, IsRejected(p, g));
    var gone := Uids(rejected);
    FilterMembers(s.waiting, IsRejected(p, g));
    assert forall w | w in s.waiting :: WaitsRightly(s, w);
    if g.name == "" || Assigned(s.nodes, g.name, p.ns) >= g.minReplicas {
      NoneRejected(s, p, g);
    } else {
      FilterMembers(s.waiting, Stays(gone));
      forall w | w in s.waiting ensures w.uid in gone <==> w in rejected {
        if w.uid in gone {
          var r :| r in rejected && r.uid == w.uid;
          assert Holds(s.nodes, r) && Holds(s.nodes, w);
        }
      }
      forall q ensures Holds(PostFilterOf(s, p).nodes, q) <==> Holds(s.nodes, q) && q !in rejected {
        HoldsFreed(s.nodes, gone, q);
        if Holds(s.nodes, q) && q.uid in gone {
          var r :| r in rejected && r.uid == q.uid;
          assert Holds(s.nodes, r);
        }
      }
    }
  }

  lemma {:induction false} FilterNone(pods: seq<Pod>, keep: Pod -> bool)
    requires forall p | p in pods :: !keep(p)
    ensures Filter(pods, keep) == []
  {
    if pods != [] {
      assert pods[|pods| - 1] in pods;
      FilterNone(pods[..|pods| - 1], keep);
    }
  }

  lemma NoneRejected(s: Sys, p: Pod, g: Group)
    requires Safe(s) && GetPodGroup(s.groups, p) == Some(g)
    requires g.name == "" || Assigned(s.nodes, g.name, p.ns) >= g.minReplicas
    ensures Filter(s.waiting, IsRejected(p, g)) == []
    ensures Drop(s, Uids([])) == s
  {
    forall w | w in s.waiting ensures !IsRejected(p, g)(w) {
      assert WaitsRightly(s, w);
    }
    FilterNone(s.waiting, IsRejected(p, g));
    DropNone(s);
  }

  // ---- all or nothing ----

  /** Short of the quorum all pods of the group that hold nodes wait; otherwise none of them waits. */
  ghost predicate AllOrNothing(s: Sys, name: string, ns: string)
    requires (ns, name) in s.groups
  {
    if Assigned(s.nodes, name, ns) < Quorum(s, name, ns)
    then forall q | Holds(s.nodes, q) && InGroup(q, name, ns) :: q in s.waiting
    else forall w | w in s.waiting :: !InGroup(w, name, ns)
  }

  ghost predicate Gangs(s: Sys) {
    && Safe(s)
    && forall ns, name | (ns, name) in s.groups && name != "" && '/' !in ns :: AllOrNothing(s, name, ns)
  }

  /** Events that do not take a node from a pod of a group that was already allowed. */
  ghost predicate SparesAllowed(s: Sys, e: Event) {
    e.Delete? ==> forall q | Holds(s.nodes, q) && q.uid == e.uid && LabelOf(q) != "" :: q in s.waiting
  }

  lemma DropKeepsGang(s: Sys, gone: set<nat>, name: string, ns: string)
    requires (ns, name) in s.groups && AllOrNothing(s, name, ns)
    requires forall q | Holds(s.nodes, q) && q.uid in gone && InGroup(q, name, ns) :: q in s.waiting
    ensures AllOrNothing(Drop(s, gone), name, ns)
  {
    var s1 := Drop(s, gone);
    FilterMembers(s.waiting, Stays(gone));
    AssignedDrop(s.nodes, gone, name, ns);
    forall q ensures Holds(s1.nodes, q) <==> Holds(s.nodes, q) && q.uid !in gone {
      HoldsFreed(s.nodes, gone, q);
    }
  }

  lemma DropKeepsGangs(s: Sys, gone: set<nat>)
    requires Gangs(s)
    requires forall q | Holds(s.nodes, q) && q.uid in gone && LabelOf(q) != "" :: q in s.waiting
    ensures Gangs(Drop(s, gone))
  {
    DropKeepsSafe(s, gone);
    forall ns, name | (ns, name) in s.groups && name != "" && '/' !in ns ensures AllOrNothing(Drop(s, gone), name, ns) {
      DropKeepsGang(s, gone, name, ns);
    }
  }

  lemma JoinsGang(s: Sys, p: Pod, i: nat, node: string)
    requires Possible(s, Schedule(p, i, node)) && LabelOf(p) != "" && (p.ns, LabelOf(p)) in s.groups
    requires AllOrNothing(s, LabelOf(p), p.ns)
    ensures AllOrNothing(ScheduleOf(s, p, i, node), LabelOf(p), p.ns)
  {
    var s1, q := ScheduleOf(s, p, i, node), p.(node := node);
    var g := GetPodGroup(s.groups, p).value;
    FilterMembers(s.waiting, IsHeld(p, g));
    AssignedPlaced(s.nodes, i, q, g.name, p.ns);
    forall r ensures Holds(s1.nodes, r) <==> Holds(s.nodes, r) || r == q {
      HoldsPlaced(s.nodes, i, q, r);
    }
  }

  lemma PassesGang(s: Sys, p: Pod, i: nat, node: string, name: string, ns: string)
    requires Possible(s, Schedule(p, i, node)) && name != "" && '/' !in ns && (ns, name) in s.groups
    requires AllOrNothing(s, name, ns) && !(LabelOf(p) == name && p.ns == ns)
    ensures AllOrNothing(ScheduleOf(s, p, i, node), name, ns)
  {
    var s1, q := ScheduleOf(s, p, i, node), p.(node := node);
    if PermitOf(s, p).0 != Unschedulable {
      var g := GetPodGroup(s.groups, p).value;
      FilterMembers(s.waiting, IsHeld(p, g));
      AssignedPlaced(s.nodes, i, q, name, ns);
      FullNameTells(ns, name, p.ns, g.name);
      forall r ensures Holds(s1.nodes, r) <==> Holds(s.nodes, r) || r == q {
        HoldsPlaced(s.nodes, i, q, r);
      }
      assert LabelOf(q) == LabelOf(p) && g.name == LabelOf(p);
    }
  }

  lemma ScheduleKeepsGangs(s: Sys, p: Pod, i: nat, node: string)
    requires Gangs(s) && Possible(s, Schedule(p, i, node))
    ensures Gangs(ScheduleOf(s, p, i, node))
  {
    var s1 := ScheduleOf(s, p, i, node);
    ScheduleKeepsSafe(s, p, i, node);
    forall ns, name | (ns, name) in s1.groups && name != "" && '/' !in ns ensures AllOrNothing(s1, name, ns) {
      assert AllOrNothing(s, name, ns);
      if LabelOf(p) == name && p.ns == ns {
        JoinsGang(s, p, i, node);
      } else {
        PassesGang(s, p, i, node, name, ns);
      }
    }
  }

  lemma SameGangs(s: Sys, s1: Sys)
    requires Gangs(s) && s1.groups == s.groups && s1.nodes == s.nodes && s1.waiting == s.waiting
    ensures Gangs(s1)
  {
    SameSafe(s, s1, s);
    forall ns, name | (ns, name) in s1.groups && name != "" && '/' !in ns ensures AllOrNothing(s1, name, ns) {
      assert AllOrNothing(s, name, ns);
    }
  }

  lemma NextKeepsGangs(s: Sys, e: Event)
    requires Gangs(s) && Possible(s, e) && SparesAllowed(s, e)
    ensures Gangs(Next(s, e))
  {
    match e
    case Schedule(p, i, node) => ScheduleKeepsGangs(s, p, i, node);
    case Timeout(uid) =>
      var w :| w in s.waiting && w.uid == uid;
      assert WaitsRightly(s, w);
      DropKeepsGangs(s, {uid});
    case Delete(uid) => DropKeepsGangs(s, {uid});
    case PostFilter(p) =>
      if GetPodGroup(s.groups, p).Some? && !AboveQuorum(s, p, GetPodGroup(s.groups, p).value) {
        RejectionKeepsGangs(s, p, GetPodGroup(s.groups, p).value);
        SameGangs(Drop(s, Uids(Filter(s.waiting, IsRejected(p, GetPodGroup(s.groups, p).value)))), Next(s, e));
      }
    case PreFilter(p) => SameGangs(s, Next(s, e));
    case Sync(_) => SameGangs(s, Next(s, e));
    case Expire(_, _) => SameGangs(s, Next(s, e));
  }

  lemma RejectionKeepsGangs(s: Sys, p: Pod, g: Group)
    requires Gangs(s)
    ensures Gangs(Drop(s, Uids(Filter(s.waiting, IsRejected(p, g)))))
  {
    var rejected := Filter(s.waiting, IsRejected(p, g));
    FilterMembers(s.waiting, IsRejected(p, g));
    forall q | Holds(s.nodes, q) && q.uid in Uids(rejected) ensures q in s.waiting {
      var w :| w in rejected && w.uid == q.uid;
      assert WaitsRightly(s, w);
    }
    DropKeepsGangs(s, Uids(rejected));
  }

  ghost predicate AllSpare(s: Sys, events: seq<Event>)
    requires Feasible(s, events)
    decreases |events|
  {
    events == [] || (SparesAllowed(s, events[0]) && AllSpare(Next(s, events[0]), events[1..]))
  }

  /**
   * All or nothing: as long as no allowed pod is deleted, in every run each group either is short of its quorum
   * and all its pods that hold nodes wait, or has its quorum and none waits.
   */
  lemma {:induction false} RunKeepsGangs(s: Sys, events: seq<Event>)
    requires Gangs(s) && Feasible(s, events) && AllSpare(s, events)
    ensures Gangs(Run(s, events))
    decreases |events|
  {
    if events != [] {
      NextKeepsGangs(s, events[0]);
      RunKeepsGangs(Next(s, events[0]), events[1..]);
    }
  }

  /** From nodes without pods every run keeps both invariants. */
  lemma IdleRuns(s: Sys, events: seq<Event>)
    requires s.waiting == [] && (forall n | n in s.nodes :: n == []) && Feasible(s, events)
    ensures Safe(Run(s, events))
    ensures AllSpare(s, events) ==> Gangs(Run(s, events))
  {
    forall p ensures !Holds(s.nodes, p) {
    }
    RunKeepsGang(s, events);
    if AllSpare(s, events) {
      RunKeepsGangs(s, events);
    }
  }

  // ---- progress ----

  predicate HasLabel(p: Pod) { p.labels.Some? && LABEL_KEY in p.labels.value }

  /** The pod is in no group, or in one that is there. */
  predicate KnownGroup(s: Sys, p: Pod) {
    HasLabel(p) ==> p.labels.value[LABEL_KEY] != "" && (p.ns, p.labels.value[LABEL_KEY]) in s.groups
  }

  /**
   * Permit: a pod without a group goes ahead, one of an unknown group is refused, and one of a known group goes ahead
   * exactly if it completes the quorum, and then takes all waiting pods of its group along; otherwise it waits.
   */
  lemma PermitDecides(s: Sys, p: Pod)
    requires Safe(s) && '/' !in p.ns
    ensures var (status, left) := PermitOf(s, p);
            && (status == Unschedulable <==> !KnownGroup(s, p))
            && (!HasLabel(p) ==> status == Success)
            && (HasLabel(p) && KnownGroup(s, p) ==>
                  var enough := Assigned(s.nodes, LabelOf(p), p.ns) + 1 >= Quorum(s, LabelOf(p), p.ns);
                  status == if enough then Success else Wait)
            && forall w :: w in left <==>
                 w in s.waiting && !(status == Success && HasLabel(p) && LabelOf(w) == LabelOf(p) && w.ns == p.ns)
  {
    var (status, left) := PermitOf(s, p);
    assert forall w | w in s.waiting :: WaitsRightly(s, w);
    if status == Success {
      var g := GetPodGroup(s.groups, p).value;
      FilterMembers(s.waiting, IsHeld(p, g));
      forall w | w in s.waiting
        ensures w in left <==> !(HasLabel(p) && LabelOf(w) == LabelOf(p) && w.ns == p.ns)
      {
        FullNameTells(w.ns, LabelOf(w), p.ns, g.name);
      }
    }
  }

  /** Pods of known groups are scheduled, and none is rejected, times out or is deleted. */
  predicate Smooth(s: Sys, e: Event) {
    match e
    case Schedule(p, _, _) => KnownGroup(s, p)
    case PreFilter(_) => true
    case Sync(_) => true
    case Expire(_, _) => true
    case _ => false
  }

  predicate OfGroup(e: Event, name: string, ns: string) { e.Schedule? && LabelOf(e.pod) == name && e.pod.ns == ns }

  /** How many pods of the group are scheduled. */
  function Scheduled(events: seq<Event>, name: string, ns: string): nat {
    if events == [] then 0 else (if OfGroup(events[0], name, ns) then 1 else 0) + Scheduled(events[1..], name, ns)
  }

  lemma SmoothStep(s: Sys, e: Event, name: string, ns: string)
    requires Possible(s, e) && Smooth(s, e) && name != ""
    ensures var s1 := Next(s, e);
            && Assigned(s1.nodes, name, ns) == Assigned(s.nodes, name, ns) + (if OfGroup(e, name, ns) then 1 else 0)
            && forall q :: Holds(s1.nodes, q) <==> Holds(s.nodes, q) || (e.Schedule? && q == e.pod.(node := e.node))
  {
    if e.Schedule? {
      var q := e.pod.(node := e.node);
      AssignedPlaced(s.nodes, e.at, q, name, ns);
      forall r ensures Holds(Next(s, e).nodes, r) <==> Holds(s.nodes, r) || r == q {
        HoldsPlaced(s.nodes, e.at, q, r);
      }
    }
  }

  lemma {:induction false} SmoothRun(s: Sys, events: seq<Event>, name: string, ns: string)
    requires Safe(s) && Feasible(s, events) && (forall e | e in events :: Smooth(s, e)) && name != ""
    ensures AllSpare(s, events)
    ensures var s1 := Run(s, events);
            && Assigned(s1.nodes, name, ns) == Assigned(s.nodes, name, ns) + Scheduled(events, name, ns)
            && forall q :: Holds(s1.nodes, q) <==>
                 Holds(s.nodes, q) || exists e | e in events :: e.Schedule? && q == e.pod.(node := e.node)
    decreases |events|
  {
    if events != [] {
      var e, rest := events[0], events[1..];
      assert e in events && events == [e] + rest;
      SmoothStep(s, e, name, ns);
      NextKeepsSafe(s, e);
      forall d | d in rest ensures Smooth(Next(s, e), d) {
        assert Smooth(s, d);
      }
      SmoothRun(Next(s, e), rest, name, ns);
    }
  }

  /**
   * Gangs form: from idle nodes, in whatever order pods of known groups are scheduled, every pod holds its node; the
   * pods of a group of which its quorum has been scheduled all go ahead, and those of any other group all wait.
   */
  lemma GangsForm(s: Sys, events: seq<Event>, name: string, ns: string)
    requires s.waiting == [] && (forall n | n in s.nodes :: n == []) && Feasible(s, events)
    requires forall e | e in events :: Smooth(s, e)
    requires name != "" && '/' !in ns && (ns, name) in s.groups
    ensures var s1 := Run(s, events);
            && (forall e | e in events && e.Schedule? :: Holds(s1.nodes, e.pod.(node := e.node)))
            && if Scheduled(events, name, ns) >= Quorum(s, name, ns)
               then forall w | w in s1.waiting :: !(LabelOf(w) == name && w.ns == ns)
               else forall e | e in events && OfGroup(e, name, ns) :: e.pod.(node := e.node) in s1.waiting
  {
    forall p ensures !Holds(s.nodes, p) {
    }
    AssignedNone(s.nodes, name, ns);
    SmoothRun(s, events, name, ns);
    RunKeepsGang(s, events);
    RunKeepsGangs(s, events);
    var s1 := Run(s, events);
    assert AllOrNothing(s1, name, ns);
    assert forall w | w in s1.waiting :: WaitsRightly(s1, w);
    forall e | e in events && OfGroup(e, name, ns) ensures InGroup(e.pod.(node := e.node), name, ns) {
      assert LabelOf(e.pod) == name;
    }
  }

  // ---- PreFilter: the first pod and the next ones ----

  /** Elements of a list without repetitions, counted as a set. */
  lemma {:induction false} CountedOnce(pods: seq<Pod>, keep: Pod -> bool)
    requires NoDuplicates(pods)
    ensures |Filter(pods, keep)| == |KeptSet(pods, keep)|
  {
    if pods != [] {
      var front, q := pods[..|pods| - 1], pods[|pods| - 1];
      assert pods == front + [q] && q !in front;
      CountedOnce(front, keep);
      KeptOneMore(front, q, keep);
    }
  }

  ghost function KeptSet(pods: seq<Pod>, keep: Pod -> bool): set<Pod> { set p | p in pods && keep(p) }

  lemma KeptOneMore(front: seq<Pod>, q: Pod, keep: Pod -> bool)
    requires q !in front
    ensures KeptSet(front + [q], keep) == KeptSet(front, keep) + if keep(q) then {q} else {}
  {
  }

  lemma {:induction false} FilterBoth(pods: seq<Pod>, keep: Pod -> bool, also: Pod -> bool)
    ensures Filter(Filter(pods, keep), also) == Filter(pods, p => keep(p) && also(p))
  {
    if pods != [] {
      var front, q := pods[..|pods| - 1], pods[|pods| - 1];
      FilterBoth(front, keep, also);
      var kept := Filter(front, keep);
      if keep(q) {
        assert Filter(pods, keep) == kept + [q];
        assert (kept + [q])[..|kept|] == kept;
      } else {
        assert Filter(pods, keep) == kept;
      }
    }
  }

  /** The number that PreFilter compares with the quorum: the pods of the group that are not being deleted. */
  lemma EnoughPodsCounts(s: Sys, g: Group)
    requires NoDuplicates(s.pods)
    ensures EnoughPods(s, g) <==> |set p | p in s.pods && Selected(p, g.ns, g.name) && !p.deleting| >= g.minReplicas
  {
    var both := p => IsSelected(g.ns, g.name)(p) && IsLive()(p);
    FilterBoth(s.pods, IsSelected(g.ns, g.name), IsLive());
    CountedOnce(s.pods, both);
    assert KeptSet(s.pods, both) == set p | p in s.pods && Selected(p, g.ns, g.name) && !p.deleting;
  }

  /**
   * The queue and the number of pods are checked only from the second pod of a group on: the first one passes
   * whatever they are, and exactly then the group is remembered; the next pod passes if and only if they are right.
   */
  lemma FirstPodIsUnchecked(s: Sys, p: Pod, q: Pod)
    requires FullName(p) !in s.backedOff && FullName(p) !in s.permitted
    requires GetPodGroup(s.groups, p).Some? && GetPodGroup(s.groups, q) == GetPodGroup(s.groups, p)
    ensures var (first, s1) := PreFilterOf(s, p);
            var (next, s2) := PreFilterOf(s1, q);
            && first == Success && s1.(permitted := s.permitted) == s && s1.permitted - s.permitted == {FullName(p)}
            && s2 == s1
            && next == if Sound(s, GetPodGroup(s.groups, p).value) then Success else UnschedulableAndUnresolvable
  {
    assert FullName(q) == FullName(p);
  }

  /** The check of a group that came by before: its queue is there, and pods enough are alive. */
  lemma SoundMeans(s: Sys, g: Group)
    requires NoDuplicates(s.pods)
    ensures Sound(s, g)
            <==> && (if g.queue == None then "default" else g.queue.value) in s.queues
                 && |set p | p in s.pods && Selected(p, g.ns, g.name) && !p.deleting| >= g.minReplicas
  {
    EnoughPodsCounts(s, g);
  }

  /** PostFilter leaves a group above its quorum alone; otherwise it forgets it, and backs it off if it is complete. */
  lemma PostFilterCaches(s: Sys, p: Pod)
    requires NoDuplicates(s.pods) && GetPodGroup(s.groups, p).Some?
    ensures var g, s1 := GetPodGroup(s.groups, p).value, PostFilterOf(s, p);
            if g.name != "" && Assigned(s.nodes, g.name, p.ns) > g.minReplicas then s1 == s
            else
              && s1.permitted == s.permitted - {FullName(p)}
              && s1.backedOff == s.backedOff + (if |set q | q in s.pods && Selected(q, p.ns, g.name)| >= g.minReplicas
                                                then {FullName(p)} else {})
  {
    var g := GetPodGroup(s.groups, p).value;
    CountedOnce(s.pods, IsSelected(p.ns, g.name));
    assert KeptSet(s.pods, IsSelected(p.ns, g.name)) == set q | q in s.pods && Selected(q, p.ns, g.name);
  }

  // ---- back-off ----

  /** Both pods have no group, or they are in the same group of the same namespace. */
  predicate SameGroup(p: Pod, q: Pod) { LabelOf(p) == LabelOf(q) && (LabelOf(p) == "" || p.ns == q.ns) }

  lemma SameFullName(p: Pod, q: Pod)
    requires '/' !in p.ns && '/' !in q.ns
    ensures FullName(p) == FullName(q) <==> SameGroup(p, q)
  {
    FullNameTells(p.ns, LabelOf(p), q.ns, LabelOf(q));
  }

  /** The group of a failing pod is not above its quorum and has pods enough, by the lister, to reach it. */
  predicate GroupFails(s: Sys, p: Pod) {
    var name := LabelOf(p);
    name != "" && (p.ns, name) in s.groups
    && Assigned(s.nodes, name, p.ns) <= Quorum(s, name, p.ns) <= |Listed(s.pods, p.ns, name)|
  }

  /**
   * Which pods a failing pod backs off: one in a group, exactly the pods of its own group, and only if the group
   * could have been scheduled; one without a group, exactly the pods without a group, of every namespace.
   */
  lemma BackoffSpreads(s: Sys, p: Pod, other: Pod)
    requires '/' !in p.ns && '/' !in other.ns
    requires FullName(other) !in s.backedOff && GetPodGroup(s.groups, other).Some?
    ensures PreFilterOf(PostFilterOf(s, p), other).0 == Unschedulable
            <==> if LabelOf(other) == "" then LabelOf(p) == "" && GetPodGroup(s.groups, p).Some?
                 else SameGroup(p, other) && GroupFails(s, p)
  {
    SameFullName(p, other);
  }

  /** The entry of the pod's group does not expire; those of other groups may. */
  predicate KeepsBackoff(e: Event, other: Pod) { e.Expire? ==> FullName(other) !in e.backedOff }

  /** A backed-off pod is refused until the entry of its group expires, whatever happens in between. */
  lemma {:induction false} BackoffLasts(s: Sys, events: seq<Event>, other: Pod)
    requires FullName(other) in s.backedOff && Feasible(s, events)
    requires forall e | e in events :: KeepsBackoff(e, other)
    ensures PreFilterOf(Run(s, events), other).0 == Unschedulable
    decreases |events|
  {
    if events != [] {
      assert events[0] in events;
      BackoffLasts(Next(s, events[0]), events[1..], other);
    }
  }
}
