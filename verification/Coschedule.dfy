/** The coscheduling plugin: pods of a group wait until enough of them hold nodes. */
module Coschedule {
  import opened Common

  const LABEL_KEY := "simple.io/pod-group"

  datatype Pod = Pod(uid: nat, ns: string, labels: Option<map<string, string>>, node: string, deleting: bool)

  datatype Group = Group(name: string, ns: string, minReplicas: int, queue: Option<string>)

  datatype Status = Success | Wait | Unschedulable | UnschedulableAndUnresolvable

  /** What the plugin sees: the snapshot, the waiting pods, the API server's objects and its two caches. */
  datatype Sys = Sys(
    nodes: seq<seq<Pod>>,
    waiting: seq<Pod>,
    groups: map<(string, string), Group>,
    queues: set<string>,
    pods: seq<Pod>,
    permitted: set<string>,
    backedOff: set<string>
  )

  // ---- groups of pods ----

  /** Name of the pod's group; empty without one. */
  function LabelOf(p: Pod): string {
    if p.labels.Some? && LABEL_KEY in p.labels.value then p.labels.value[LABEL_KEY] else ""
  }

  function FullName(p: Pod): string {
    if LabelOf(p) == "" then "" else p.ns + "/" + LabelOf(p)
  }

  /** Pods without the label belong to an empty group; None: an error. */
  function GetPodGroup(groups: map<(string, string), Group>, p: Pod): Option<Group> {
    if p.labels.Some? && LABEL_KEY in p.labels.value then
      var name := p.labels.value[LABEL_KEY];
      if name != "" && (p.ns, name) in groups then Some(groups[(p.ns, name)].(name := name, ns := p.ns)) else None
    else Some(Group("", "", 0, None))
  }

  predicate InGroup(p: Pod, name: string, ns: string) { p.labels.Some? && LabelOf(p) == name && p.ns == ns }

  predicate Counted(p: Pod, name: string, ns: string) { InGroup(p, name, ns) && p.node != "" }

  function CountOn(pods: seq<Pod>, name: string, ns: string): nat {
    if pods == [] then 0
    else CountOn(pods[..|pods| - 1], name, ns) + if Counted(pods[|pods| - 1], name, ns) then 1 else 0
  }

  /** Number of pods of the group that hold a node. */
  function Assigned(nodes: seq<seq<Pod>>, name: string, ns: string): nat {
    if nodes == [] then 0
    else Assigned(nodes[..|nodes| - 1], name, ns) + CountOn(nodes[|nodes| - 1], name, ns)
  }

  /** The lister's pods with the group label; the empty namespace stands for all. */
  predicate Selected(p: Pod, ns: string, name: string) {
    && (ns == "" || p.ns == ns)
    && p.labels.Some? && LABEL_KEY in p.labels.value && p.labels.value[LABEL_KEY] == name
  }

  /** The pods that satisfy keep, in order. */
  function Filter(pods: seq<Pod>, keep: Pod -> bool): seq<Pod> {
    if pods == [] then []
    else Filter(pods[..|pods| - 1], keep) + if keep(pods[|pods| - 1]) then [pods[|pods| - 1]] else []
  }

  function IsSelected(ns: string, name: string): Pod -> bool { p => Selected(p, ns, name) }

  function IsLive(): Pod -> bool { (p: Pod) => !p.deleting }

  function Listed(pods: seq<Pod>, ns: string, name: string): seq<Pod> { Filter(pods, IsSelected(ns, name)) }

  function Live(pods: seq<Pod>): seq<Pod> { Filter(pods, IsLive()) }

  // ---- what the extension points decide ----

  predicate EnoughPods(s: Sys, g: Group) { |Live(Listed(s.pods, g.ns, g.name))| >= g.minReplicas }

  function QueueOf(g: Group): string { if g.queue.Some? then g.queue.value else "default" }

  /** The check that a permitted group has to pass. */
  predicate Sound(s: Sys, g: Group) { QueueOf(g) in s.queues && EnoughPods(s, g) }

  /** Not failed recently, in a group that is found, and the group is sound if a pod of it came by before. */
  predicate Passes(s: Sys, p: Pod) {
    && FullName(p) !in s.backedOff
    && GetPodGroup(s.groups, p).Some?
    && (FullName(p) in s.permitted ==> Sound(s, GetPodGroup(s.groups, p).value))
  }

  function PreFilterOf(s: Sys, p: Pod): (Status, Sys) {
    if FullName(p) in s.backedOff then (Unschedulable, s)
    else match GetPodGroup(s.groups, p)
      case None => (Unschedulable, s)
      case Some(g) =>
        if FullName(p) in s.permitted then
          if Sound(s, g) then (Success, s)
          else (UnschedulableAndUnresolvable, s)
        else (Success, s.(permitted := s.permitted + {FullName(p)}))
  }

  /** The waiting pods that PostFilter rejects for p. */
  function IsRejected(p: Pod, g: Group): Pod -> bool { (w: Pod) => w.ns == p.ns && LabelOf(w) == g.name }

  /** The group is above its quorum, so PostFilter leaves it alone. */
  predicate AboveQuorum(s: Sys, p: Pod, g: Group) {
    |g.name| > 0 && Assigned(s.nodes, g.name, p.ns) > g.minReplicas
  }

  /** The waiting pods that Permit does not allow for p. */
  function IsHeld(p: Pod, g: Group): Pod -> bool { w => FullName(w) != p.ns + "/" + g.name }

  /** The plugin's part of Permit: the status, and the waiting pods that are left. */
  function PermitOf(s: Sys, p: Pod): (Status, seq<Pod>) {
    match GetPodGroup(s.groups, p)
    case None => (Unschedulable, s.waiting)
    case Some(g) =>
      if Assigned(s.nodes, g.name, p.ns) + 1 >= g.minReplicas
      then (Success, Filter(s.waiting, IsHeld(p, g)))
      else (Wait, s.waiting)
  }

  // ---- what the scheduler does around them ----

  function Stays(gone: set<nat>): Pod -> bool { (p: Pod) => p.uid !in gone }

  /** The nodes without the pods that give theirs up. */
  function Freed(nodes: seq<seq<Pod>>, gone: set<nat>): seq<seq<Pod>> {
    if nodes == [] then [] else Freed(nodes[..|nodes| - 1], gone) + [Filter(nodes[|nodes| - 1], Stays(gone))]
  }

  /** The pods with these IDs lose their nodes and stop waiting. */
  function Drop(s: Sys, gone: set<nat>): Sys {
    s.(nodes := Freed(s.nodes, gone), waiting := Filter(s.waiting, Stays(gone)))
  }

  function Uids(pods: seq<Pod>): set<nat> { set p | p in pods :: p.uid }

  function PostFilterOf(s: Sys, p: Pod): Sys {
    match GetPodGroup(s.groups, p)
    case None => s
    case Some(g) =>
      if AboveQuorum(s, p, g) then s
      else
        var s1 := Drop(s, Uids(Filter(s.waiting, IsRejected(p, g))));
        s1.(permitted := s1.permitted - {FullName(p)},
            backedOff := if |Listed(s.pods, p.ns, g.name)| < g.minReplicas then s1.backedOff
                         else s1.backedOff + {FullName(p)})
  }

  /** The pod is assumed on a node, then asked for by Permit. */
  function ScheduleOf(s: Sys, p: Pod, i: nat, node: string): Sys
    requires i < |s.nodes|
  {
    var q := p.(node := node);
    match PermitOf(s, p)
    case (Success, waiting) => s.(nodes := s.nodes[i := s.nodes[i] + [q]], waiting := waiting)
    case (Wait, waiting) => s.(nodes := s.nodes[i := s.nodes[i] + [q]], waiting := waiting + [q])
    case _ => s
  }

  datatype Event =
    | Schedule(pod: Pod, at: nat, node: string)
    | PreFilter(pod: Pod)
    | PostFilter(pod: Pod)
    | Timeout(uid: nat)
    | Delete(uid: nat)
    | Sync(pods: seq<Pod>)
    | Expire(permitted: set<string>, backedOff: set<string>)

  predicate Possible(s: Sys, e: Event) {
    match e
    case Schedule(p, i, node) =>
      && i < |s.nodes| && node != "" && '/' !in p.ns
      && forall n, q | n in s.nodes && q in n :: q.uid != p.uid
    case Timeout(uid) => exists w | w in s.waiting :: w.uid == uid
    case _ => true
  }

  function Next(s: Sys, e: Event): Sys
    requires Possible(s, e)
  {
    match e
    case Schedule(p, i, node) => ScheduleOf(s, p, i, node)
    case PreFilter(p) => PreFilterOf(s, p).1
    case PostFilter(p) => PostFilterOf(s, p)
    case Timeout(uid) => Drop(s, {uid})
    case Delete(uid) => Drop(s, {uid})
    case Sync(pods) => s.(pods := pods)
    case Expire(permitted, backedOff) => s.(permitted := s.permitted - permitted, backedOff := s.backedOff - backedOff)
  }

  // ---- the plugin ----

  class CoschedulePlugin {
    var nodes: seq<seq<Pod>>
    var waiting: seq<Pod>
    var groups: map<(string, string), Group>
    var queues: set<string>
    var pods: seq<Pod>
    var permittedPG: set<string>
    var backedOffPG: set<string>

    constructor (s: Sys)
      ensures View() == s
    {
      nodes, waiting, groups, queues := s.nodes, s.waiting, s.groups, s.queues;
      pods, permittedPG, backedOffPG := s.pods, s.permitted, s.backedOff;
    }

    function View(): Sys
      reads this
    {
      Sys(nodes, waiting, groups, queues, pods, permittedPG, backedOffPG)
    }

    method CalculateAssignedPods(podGroupName: string, namespace: string) returns (count: nat)
      ensures count == Assigned(nodes, podGroupName, namespace)
    {
      count := 0;
      for i := 0 to |nodes|
        invariant count == Assigned(nodes[..i], podGroupName, namespace)
      {
        assert nodes[..i + 1][..i] == nodes[..i];
        var onNode := nodes[i];
        ghost var before := count;
        for j := 0 to |onNode|
          invariant count == before + CountOn(onNode[..j], podGroupName, namespace)
        {
          assert onNode[..j + 1][..j] == onNode[..j];
          var pod := onNode[j];
          if pod.labels.Some?
             && (if LABEL_KEY in pod.labels.value then pod.labels.value[LABEL_KEY] else "") == podGroupName {
            if pod.ns == namespace && pod.node != "" {
              count := count + 1;
            }
          }
        }
        assert onNode[..|onNode|] == onNode;
      }
      assert nodes[..|nodes|] == nodes;
    }

    /** Both length checks come down to one: enough pods that are not being deleted. */
    method CheckPodNum(g: Group) returns (ok: bool)
      ensures ok == EnoughPods(View(), g)
    {
      var pgPods := Listed(pods, g.ns, g.name);
      FilterShorter(pgPods, IsLive());
      if |pgPods| < g.minReplicas {
        return false;
      }
      var pgNumber := |pgPods|;
      for i := 0 to |pgPods|
        invariant pgNumber == |Live(pgPods[..i])| + (|pgPods| - i)
      {
        assert pgPods[..i + 1][..i] == pgPods[..i];
        if pgPods[i].deleting {
          pgNumber := pgNumber - 1;
        }
      }
      assert pgPods[..|pgPods|] == pgPods;
      return pgNumber >= g.minReplicas;
    }

    method PreFilter(pod: Pod) returns (status: Status)
      modifies this
      ensures (status, View()) == PreFilterOf(old(View()), pod)
      ensures status.Success? <==> Passes(old(View()), pod)
      ensures status.Unschedulable?
        <==> FullName(pod) in old(backedOffPG) || GetPodGroup(old(groups), pod).None?
      ensures View() == if !status.Success? then old(View())
                        else old(View()).(permitted := old(permittedPG) + {FullName(pod)})
    {
      var pgFullName := FullName(pod);
      if pgFullName in backedOffPG {
        return Unschedulable;
      }
      var pg := GetPodGroup(groups, pod);
      if pg.None? {
        return Unschedulable;
      }
      if pgFullName in permittedPG {
        var queue := if pg.value.queue.None? then "default" else pg.value.queue.value;
        if queue !in queues {
          return UnschedulableAndUnresolvable;
        }
        var ok := CheckPodNum(pg.value);
        if !ok {
          return UnschedulableAndUnresolvable;
        }
      } else {
        permittedPG := permittedPG + {pgFullName};
      }
      return Success;
    }

    /** Reject takes the waiting pods out one by one; each gives up its node. */
    method RejectAll(rejected: seq<Pod>)
      modifies this
      ensures View() == Drop(old(View()), Uids(rejected))
    {
      ghost var s := View();
      DropNone(s);
      for i := 0 to |rejected|
        invariant View() == Drop(s, Uids(rejected[..i]))
      {
        var uid := rejected[i].uid;
        DropMore(s, Uids(rejected[..i]), uid);
        assert Uids(rejected[..i + 1]) == Uids(rejected[..i]) + {uid} by {
          assert rejected[..i + 1] == rejected[..i] + [rejected[i]];
        }
        nodes, waiting := Freed(nodes, {uid}), Filter(waiting, Stays({uid}));
      }
      assert rejected[..|rejected|] == rejected;
    }

    method PostFilter(pod: Pod)
      modifies this
      ensures View() == PostFilterOf(old(View()), pod)
    {
      var pg := GetPodGroup(groups, pod);
      if pg.None? {
        return;
      }
      var g := pg.value;
      if |g.name| > 0 {
        var assignedPodNum := CalculateAssignedPods(g.name, pod.ns);
        if assignedPodNum > g.minReplicas {
          return;
        }
      }
      RejectAll(Filter(waiting, IsRejected(pod, g)));
      if |Listed(pods, pod.ns, g.name)| >= g.minReplicas {
        backedOffPG := backedOffPG + {FullName(pod)};
      }
      permittedPG := permittedPG - {FullName(pod)};
    }

    method Permit(pod: Pod) returns (status: Status)
      modifies this`waiting
      ensures (status, waiting) == PermitOf(old(View()), pod)
    {
      var pg := GetPodGroup(groups, pod);
      if pg.None? {
        return Unschedulable;
      }
      var g := pg.value;
      var assignedPodNum := CalculateAssignedPods(g.name, pod.ns);
      if assignedPodNum + 1 >= g.minReplicas {
        var left: seq<Pod> := [];
        for i := 0 to |waiting|
          invariant waiting == old(waiting)
          invariant left == Filter(waiting[..i], IsHeld(pod, g))
        {
          assert waiting[..i + 1][..i] == waiting[..i];
          if FullName(waiting[i]) != pod.ns + "/" + g.name {
            left := left + [waiting[i]];
          }
        }
        assert waiting[..|waiting|] == waiting;
        waiting := left;
        return Success;
      }
      return Wait;
    }
  }

  lemma {:induction false} FilterMembers(pods: seq<Pod>, keep: Pod -> bool)
    ensures forall p :: p in Filter(pods, keep) <==> p in pods && keep(p)
  {
    if pods != [] {
      FilterMembers(pods[..|pods| - 1], keep);
      assert pods == pods[..|pods| - 1] + [pods[|pods| - 1]];
    }
  }

  lemma {:induction false} FilterShorter(pods: seq<Pod>, keep: Pod -> bool)
    ensures |Filter(pods, keep)| <= |pods|
  {
    if pods != [] {
      FilterShorter(pods[..|pods| - 1], keep);
    }
  }

  lemma {:induction false} FilterAll(pods: seq<Pod>, keep: Pod -> bool)
    requires forall p | p in pods :: keep(p)
    ensures Filter(pods, keep) == pods
  {
    if pods != [] {
      FilterAll(pods[..|pods| - 1], keep);
      assert keep(pods[|pods| - 1]);
    }
  }

  lemma {:induction false} FilterTwice(pods: seq<Pod>, gone: set<nat>, uid: nat)
    ensures Filter(Filter(pods, Stays(gone)), Stays({uid})) == Filter(pods, Stays(gone + {uid}))
  {
    if pods != [] {
      var front, p := pods[..|pods| - 1], pods[|pods| - 1];
      FilterTwice(front, gone, uid);
      if p.uid !in gone {
        var kept := Filter(front, Stays(gone));
        assert Filter(pods, Stays(gone)) == kept + [p];
        assert (kept + [p])[..|kept|] == kept;
      } else {
        assert Filter(pods, Stays(gone)) == Filter(front, Stays(gone));
      }
    }
  }

  lemma {:induction false} FreedNone(nodes: seq<seq<Pod>>)
    ensures Freed(nodes, {}) == nodes
  {
    if nodes != [] {
      var front, n := nodes[..|nodes| - 1], nodes[|nodes| - 1];
      FreedNone(front);
      FilterAll(n, Stays({}));
      assert front + [n] == nodes;
    }
  }

  lemma {:induction false} FreedTwice(nodes: seq<seq<Pod>>, gone: set<nat>, uid: nat)
    ensures Freed(Freed(nodes, gone), {uid}) == Freed(nodes, gone + {uid})
  {
    if nodes != [] {
      var front, n := nodes[..|nodes| - 1], nodes[|nodes| - 1];
      FreedTwice(front, gone, uid);
      FilterTwice(n, gone, uid);
      var kept := Freed(front, gone);
      assert (kept + [Filter(n, Stays(gone))])[..|kept|] == kept;
    }
  }

  lemma DropNone(s: Sys)
    ensures Drop(s, Uids([])) == s
  {
    assert Uids([]) == {};
    FreedNone(s.nodes);
    FilterAll(s.waiting, Stays({}));
  }

  lemma DropMore(s: Sys, gone: set<nat>, uid: nat)
    ensures Drop(Drop(s, gone), {uid}) == Drop(s, gone + {uid})
  {
    FreedTwice(s.nodes, gone, uid);
    FilterTwice(s.waiting, gone, uid);
  }
}
