/** The ensure loops of several rule lists, interleaved with each other and with outsiders in any way. */
module Loops {
  import opened IpTables
  import opened RuleOrder
  import opened EnsureLoop
  import opened Rules
  import opened Manager

  /** The lists are well formed and work on different tables. */
  ghost predicate Separate(lists: seq<seq<Rule>>) {
    && (forall l | l in lists :: Managed(l))
    && forall i, j | 0 <= i < j < |lists| :: Tables(lists[i]) !! Tables(lists[j])
  }

  /** An edit by outsiders, or one round of one of the loops, with some iteration order. */
  datatype Event = Outside(edit: Edit) | Ensure(which: nat, order: seq<string>)

  ghost predicate CanHappen(k: Kernel, lists: seq<seq<Rule>>, e: Event) {
    match e
    case Outside(edit) => Foreign(k, [], edit) && forall l | l in lists :: Foreign(k, l, edit)
    case Ensure(i, order) => i < |lists| && Specified(lists[i]) && IterationOf(order, Tables(lists[i]))
  }

  function Happened(k: Kernel, lists: seq<seq<Rule>>, e: Event): Applied
    requires CanHappen(k, lists, e)
  {
    match e
    case Outside(edit) => Applied(Edited(k, [], edit), true)
    case Ensure(i, order) => EnsureOf(k, lists[i], order)
  }

  ghost predicate AllInOrder(k: Kernel, lists: seq<seq<Rule>>) {
    forall l | l in lists :: InOrder(k, l) && Anchored(k, l)
  }

  // ---- one event ----

  /** A round for one list, seen by a list that works on other tables. */
  lemma RoundElsewhere(k: Kernel, rules: seq<Rule>, order: seq<string>, others: seq<Rule>)
    requires Managed(rules) && Anchored(k, rules) && InOrder(k, rules) && IterationOf(order, Tables(rules))
    requires Anchored(k, others) && InOrder(k, others) && Tables(rules) !! Tables(others)
    ensures var k1 := EnsureOf(k, rules, order).kernel;
            Anchored(k1, others) && InOrder(k1, others) && (InForce(k, others) ==> InForce(k1, others))
  {
    var k1 := EnsureOf(k, rules, order).kernel;
    EnsurePutsInForce(k, rules, order);
    forall r | r in others ensures (r.table, r.chain) in k ==> (r.table, r.chain) in k1 {
    }
    forall key: Key ensures Proj(At(k1, key), On(others, key)) == Proj(At(k, key), On(others, key)) {
      if key.0 in Tables(others) {
        LoopsAreSeparate(k, rules, order, key.0);
      } else {
        OnElsewhere(others, key);
        ProjNone(At(k1, key), []);
        ProjNone(At(k, key), []);
      }
    }
  }

  lemma RoundKeepsOrder(k: Kernel, lists: seq<seq<Rule>>, i: nat, order: seq<string>)
    requires Separate(lists) && AllInOrder(k, lists) && CanHappen(k, lists, Ensure(i, order))
    ensures var after := EnsureOf(k, lists[i], order);
            after.ok && InForce(after.kernel, lists[i]) && AllInOrder(after.kernel, lists)
  {
    var rules, after := lists[i], EnsureOf(k, lists[i], order);
    assert rules in lists;
    EnsurePutsInForce(k, rules, order);
    InForceIsInOrder(after.kernel, rules);
    forall l | l in lists ensures InOrder(after.kernel, l) && Anchored(after.kernel, l) {
      var j :| 0 <= j < |lists| && lists[j] == l;
      if j != i {
        RoundElsewhere(k, rules, order, l);
      }
    }
  }

  lemma OutsideKeepsOrder(k: Kernel, lists: seq<seq<Rule>>, edit: Edit)
    requires Separate(lists) && AllInOrder(k, lists) && CanHappen(k, lists, Outside(edit))
    ensures AllInOrder(Edited(k, [], edit), lists)
  {
    forall l | l in lists ensures InOrder(Edited(k, [], edit), l) && Anchored(Edited(k, [], edit), l) {
      EditKeepsOrder(k, l, edit);
      assert Edited(k, [], edit) == Edited(k, l, edit);
    }
  }

  // ---- all interleavings ----

  ghost predicate CanRun(k: Kernel, lists: seq<seq<Rule>>, events: seq<Event>)
    decreases |events|, 0
  {
    events == []
    || (&& CanRun(k, lists, events[..|events| - 1])
        && CanHappen(After(k, lists, events[..|events| - 1]).kernel, lists, events[|events| - 1]))
  }

  /** The outcome of the last event. */
  ghost function After(k: Kernel, lists: seq<seq<Rule>>, events: seq<Event>): Applied
    requires CanRun(k, lists, events)
    decreases |events|, 1
  {
    if events == [] then Applied(k, true)
    else Happened(After(k, lists, events[..|events| - 1]).kernel, lists, events[|events| - 1])
  }

  /**
   * Whatever the loops and the outsiders do, in whatever order: the managed rules present are always in order, each
   * at most once, in every list; and after a round of a loop, which never fails, all rules of its list are in force.
   */
  lemma {:induction false} InterleavedLoops(k: Kernel, lists: seq<seq<Rule>>, events: seq<Event>)
    requires Separate(lists) && AllInOrder(k, lists) && CanRun(k, lists, events)
    ensures var after := After(k, lists, events);
            && after.ok && AllInOrder(after.kernel, lists) && (forall l | l in lists :: AtMostOnce(after.kernel, l))
            && (events != [] && events[|events| - 1].Ensure?
                ==> InForce(after.kernel, lists[events[|events| - 1].which]))
  {
    if events != [] {
      var front, e := events[..|events| - 1], events[|events| - 1];
      InterleavedLoops(k, lists, front);
      var k1 := After(k, lists, front).kernel;
      match e
      case Outside(edit) => OutsideKeepsOrder(k1, lists, edit);
      case Ensure(i, order) => RoundKeepsOrder(k1, lists, i, order);
    }
    var after := After(k, lists, events);
    forall l | l in lists ensures AtMostOnce(after.kernel, l) {
      InOrderAtMostOnce(after.kernel, l);
    }
  }

  // ---- the loops of the iptables manager ----

  /** The rules that a node starts its loops with; the masquerade loop is not started after a failed recycling. */
  function NodeLists(k: Kernel, st: Start): seq<seq<Rule>> {
    if RecycleOk(k, st) then [Masq(st), ForwardRules(st.node)] else [ForwardRules(st.node)]
  }

  lemma NodeListsSeparate(k: Kernel, st: Start)
    ensures Separate(NodeLists(k, st))
  {
    MasqRulesManaged(st.cluster, st.node, st.randomFully, map[]);
    ForwardRulesManaged(st.node, map[]);
  }

  /** A bootstrap leaves the rules of other tables as they were. */
  lemma BootstrapElsewhere(k: Kernel, rules: seq<Rule>, order: seq<string>, others: seq<Rule>)
    requires Managed(rules) && Anchored(k, rules) && IterationOf(order, Tables(rules))
    requires Tables(rules) !! Tables(others)
    ensures var k1 := BootstrapOf(k, rules, order).kernel;
            && (AtMostOnce(k, others) <==> AtMostOnce(k1, others))
            && (InForce(k, others) <==> InForce(k1, others))
            && (Anchored(k, others) ==> Anchored(k1, others))
  {
    var k1 := BootstrapOf(k, rules, order).kernel;
    BootstrapKeeps(k, rules, order);
    forall r | r in others ensures At(k1, (r.table, r.chain)) == At(k, (r.table, r.chain)) {
    }
    forall r | r in others ensures (r.table, r.chain) in k ==> (r.table, r.chain) in k1 {
    }
    forall key: Key ensures Proj(At(k1, key), On(others, key)) == Proj(At(k, key), On(others, key)) {
      if key.0 !in Tables(others) {
        OnElsewhere(others, key);
        ProjNone(At(k1, key), []);
        ProjNone(At(k, key), []);
      }
    }
  }

  /** After two bootstraps of lists on different tables each list is in force exactly if none of it stood twice. */
  lemma BootstrapTwo(k: Kernel, rules: seq<Rule>, order: seq<string>, others: seq<Rule>, order1: seq<string>)
    requires Managed(rules) && Anchored(k, rules) && IterationOf(order, Tables(rules))
    requires Managed(others) && Anchored(k, others) && IterationOf(order1, Tables(others))
    requires Tables(rules) !! Tables(others)
    ensures var k1 := BootstrapOf(BootstrapOf(k, rules, order).kernel, others, order1).kernel;
            && Anchored(k1, rules) && (InForce(k1, rules) <==> AtMostOnce(k, rules))
            && Anchored(k1, others) && (InForce(k1, others) <==> AtMostOnce(k, others))
  {
    var k0 := BootstrapOf(k, rules, order).kernel;
    BootstrapPutsInForce(k, rules, order);
    StillAnchored(k, rules, order, rules);
    BootstrapElsewhere(k, rules, order, others);
    BootstrapPutsInForce(k0, others, order1);
    StillAnchored(k0, others, order1, others);
    BootstrapElsewhere(k0, others, order1, rules);
  }

  /** With an empty managed chain only the jump can stand twice. */
  lemma MasqOnce(k: Kernel, st: Start)
    requires At(k, NAT) == []
    ensures AtMostOnce(k, Masq(st)) <==> Copies(k, POSTROUTING, Jump()) <= 1
  {
    MasqShaped(st.cluster, st.node, st.randomFully);
    var rules := Masq(st);
    assert rules[0] == Rule("nat", "-A", "POSTROUTING", Jump()) && rules[0] in rules;
    forall r | r in rules ensures r == rules[0] || (r.table, r.chain) == NAT {
      var i :| 0 <= i < 7 && rules[i] == r;
    }
  }

  lemma ForwardOnce(k: Kernel, node: string)
    requires At(k, FILTER) == []
    ensures AtMostOnce(k, ForwardRules(node)) <==> Copies(k, FORWARD, ForwardJump()) <= 1
  {
    var rules := ForwardRules(node);
    assert rules[0] == Rule("filter", "-A", "FORWARD", ForwardJump()) && rules[0] in rules;
  }

  /** How often the jump to the managed nat chain may stand before the start; recycling takes one copy away. */
  function JumpLimit(k: Kernel, st: Start): nat { if Recycles(st) && NAT in k then 2 else 1 }

  lemma BothStarted(k: Kernel, st: Start)
    requires POSTROUTING in k && FORWARD in k && RecycleOk(k, st)
    ensures var k1 := StartedKernel(k, st);
            && Anchored(k1, Masq(st)) && Anchored(k1, ForwardRules(st.node))
            && (InForce(k1, ForwardRules(st.node)) <==> AtMostOnce(Cleared(k, st), ForwardRules(st.node)))
            && (InForce(k1, Masq(st)) <==> AtMostOnce(Cleared(k, st), Masq(st)))
  {
    var k0, masq, forwards := Cleared(k, st), Masq(st), ForwardRules(st.node);
    ClearedChains(k, st);
    MasqRulesManaged(st.cluster, st.node, st.randomFully, k0);
    ForwardRulesManaged(st.node, k0);
    if st.masqFirst {
      BootstrapTwo(k0, masq, ["nat"], forwards, ["filter"]);
    } else {
      BootstrapTwo(k0, forwards, ["filter"], masq, ["nat"]);
    }
  }

  lemma ForwardStarted(k: Kernel, st: Start)
    requires POSTROUTING in k && FORWARD in k && !RecycleOk(k, st)
    ensures var k1 := StartedKernel(k, st);
            && Anchored(k1, Masq(st)) && Anchored(k1, ForwardRules(st.node))
            && (InForce(k1, ForwardRules(st.node)) <==> AtMostOnce(Cleared(k, st), ForwardRules(st.node)))
  {
    var k0, masq, forwards := Cleared(k, st), Masq(st), ForwardRules(st.node);
    ClearedChains(k, st);
    MasqRulesManaged(st.cluster, st.node, st.randomFully, k0);
    ForwardRulesManaged(st.node, k0);
    BootstrapPutsInForce(k0, forwards, ["filter"]);
    StillAnchored(k0, forwards, ["filter"], forwards);
    BootstrapElsewhere(k0, forwards, ["filter"], masq);
  }

  /** After the start a list is in force exactly if its jump did not stand too often before. */
  lemma StartedInForce(k: Kernel, st: Start)
    requires POSTROUTING in k && FORWARD in k
    ensures var k1 := StartedKernel(k, st);
            && Anchored(k1, Masq(st)) && Anchored(k1, ForwardRules(st.node))
            && (InForce(k1, ForwardRules(st.node)) <==> Copies(k, FORWARD, ForwardJump()) <= 1)
            && (RecycleOk(k, st) ==> (InForce(k1, Masq(st)) <==> Copies(k, POSTROUTING, Jump()) <= JumpLimit(k, st)))
  {
    ClearedChains(k, st);
    ForwardOnce(Cleared(k, st), st.node);
    if RecycleOk(k, st) {
      BothStarted(k, st);
      MasqOnce(Cleared(k, st), st);
      RecycledChains(k, st);
    } else {
      ForwardStarted(k, st);
    }
  }

  /** What the loops keep: the lists in order, and each in force at the start and after its own rounds. */
  ghost predicate Kept(lists: seq<seq<Rule>>, events: seq<Event>, after: Applied) {
    && after.ok && AllInOrder(after.kernel, lists)
    && if events == [] then forall l | l in lists :: InForce(after.kernel, l)
       else match events[|events| - 1]
         case Ensure(i, _) => i < |lists| && InForce(after.kernel, lists[i])
         case Outside(_) => true
  }

  ghost predicate AllInForce(k: Kernel, lists: seq<seq<Rule>>) {
    forall l | l in lists :: InForce(k, l) && Anchored(k, l)
  }

  lemma KeptFromForce(k: Kernel, lists: seq<seq<Rule>>, events: seq<Event>)
    requires Separate(lists) && AllInForce(k, lists) && CanRun(k, lists, events)
    ensures Kept(lists, events, After(k, lists, events))
  {
    forall l | l in lists ensures InOrder(k, l) {
      InForceIsInOrder(k, l);
    }
    InterleavedLoops(k, lists, events);
  }

  lemma BothOf(k: Kernel, a: seq<Rule>, b: seq<Rule>)
    requires InForce(k, b) && Anchored(k, b)
    ensures AllInForce(k, [b])
    ensures InForce(k, a) && Anchored(k, a) ==> AllInForce(k, [a, b])
  {
  }

  lemma ListsStarted(k: Kernel, st: Start)
    requires POSTROUTING in k && FORWARD in k && Copies(k, FORWARD, ForwardJump()) <= 1
    requires RecycleOk(k, st) ==> Copies(k, POSTROUTING, Jump()) <= JumpLimit(k, st)
    ensures AllInForce(StartedKernel(k, st), NodeLists(k, st))
  {
    StartedInForce(k, st);
    BothOf(StartedKernel(k, st), Masq(st), ForwardRules(st.node));
  }

  /** From the start of the manager on, with its loops and outsiders interleaved in any way. */
  lemma NodeKeepsRules(k: Kernel, st: Start, events: seq<Event>)
    requires POSTROUTING in k && FORWARD in k && Copies(k, FORWARD, ForwardJump()) <= 1
    requires RecycleOk(k, st) ==> Copies(k, POSTROUTING, Jump()) <= JumpLimit(k, st)
    requires CanRun(StartedKernel(k, st), NodeLists(k, st), events)
    ensures Kept(NodeLists(k, st), events, After(StartedKernel(k, st), NodeLists(k, st), events))
  {
    NodeListsSeparate(k, st);
    ListsStarted(k, st);
    KeptFromForce(StartedKernel(k, st), NodeLists(k, st), events);
  }
}
