/** The iptables manager: start-up, and the clean-up when the daemon stops. */
module Manager {
  import opened Common
  import opened IpTables
  import opened RuleOrder
  import opened RuleTeardown
  import opened Rules
  import Cidr
  import opened Masquerade

  /** Text of a network that is not there. */
  const NIL := "<nil>"

  const POSTROUTING: Key := ("nat", "POSTROUTING")
  const FILTER: Key := ("filter", FWD)
  const FORWARD: Key := ("filter", "FORWARD")

  /**
   * One start: the networks of the cluster and of the node, the network read back as that of the node in the run
   * before, whether the checks of single rules answer, and whose goroutine comes first. The cluster's network of
   * the run before is never set.
   */
  datatype Start = Start(cluster: string, node: string, prevNode: string,
                         randomFully: bool, checks: bool, masqFirst: bool)

  function Masq(st: Start): seq<Rule> { MasqRules(st.cluster, st.node, st.randomFully) }

  /** The rules that the recycling step takes for those of the run before. */
  function OldRules(st: Start): seq<Rule> { MasqRules(NIL, st.prevNode, st.randomFully) }

  predicate Recycles(st: Start) { st.prevNode != st.node || NIL != st.cluster }

  /** The recycling step succeeds: it is not needed, or there is no managed chain, or its checks answer. */
  predicate RecycleOk(k: Kernel, st: Start) { Recycles(st) && NAT in k ==> st.checks }

  /** Some rule has a managed chain that exists, or none, so that the rule itself is looked up. */
  predicate LooksUp(k: Kernel, rules: seq<Rule>)
    requires Specified(rules)
  {
    exists r | r in rules :: !ChainMissing(k, r)
  }

  /** The tables of a teardown of nat rules, as Go iterates them. */
  function NatOrder(k: Kernel, rules: seq<Rule>): seq<string>
    requires Specified(rules)
  {
    if TeardownTables(k, rules) == {} then [] else ["nat"]
  }

  class IPTablesManager {
    var ipv4Rules: seq<Rule>
    const ipt: Netfilter

    constructor (ipt: Netfilter)
      ensures this.ipt == ipt && ipv4Rules == []
    {
      this.ipt := ipt;
      ipv4Rules := [];
    }

    /** The start of an ensure goroutine: bootstrap, then remember the rules for the clean-up. */
    method SetupIP4Tables(rules: seq<Rule>, order: seq<string>)
      requires Specified(rules) && IterationOf(order, Tables(rules))
      modifies this, ipt
      ensures ipt.chains == BootstrapOf(old(ipt.chains), rules, order).kernel
      ensures ipv4Rules == old(ipv4Rules) + rules
    {
      var ok := IpTablesBootstrap(ipt, rules, order);
      ipv4Rules := ipv4Rules + rules;
    }

    /** A teardown, which a failing check ends before anything is changed. */
    method DeleteIP4Tables(rules: seq<Rule>, order: seq<string>, checks: bool) returns (ok: bool)
      requires Specified(rules) && IterationOf(order, TeardownTables(ipt.chains, rules))
      modifies ipt
      ensures Applied(ipt.chains, ok) == if !checks && LooksUp(old(ipt.chains), rules)
                                         then Applied(old(ipt.chains), false)
                                         else TeardownOf(old(ipt.chains), rules, order)
    {
      if !checks {
        for i := 0 to |rules|
          invariant forall r | r in rules[..i] :: ChainMissing(ipt.chains, r)
          invariant ipt.chains == old(ipt.chains)
        {
          var c := ManagedChain(rules[i]);
          var chainExists := true;
          if c.Some? {
            chainExists := ipt.ChainExists(rules[i].table, c.value);
          }
          if chainExists {
            assert rules[i] in rules && !ChainMissing(ipt.chains, rules[i]);
            return false;
          }
        }
        assert rules[..|rules|] == rules;
      }
      ok := TeardownIPTables(ipt, rules, order);
    }

    /** SetupAndEnsureMasqRules before the goroutine: recycle the rules of the run before, empty the chain. */
    method PrepareMasqRules(st: Start) returns (ok: bool)
      modifies ipt
      ensures ok == RecycleOk(old(ipt.chains), st)
      ensures ipt.chains == if ok then Recycled(old(ipt.chains), st)[NAT := []] else old(ipt.chains)
    {
      if st.prevNode != st.node || NIL != st.cluster {
        RecycleEffect(ipt.chains, st);
        var deleted := DeleteIP4Tables(OldRules(st), NatOrder(ipt.chains, OldRules(st)), st.checks);
        if !deleted {
          return false;
        }
      }
      ipt.ClearChain("nat", POSTRTG);
      return true;
    }

    /** Init; the masquerade loop is started if and only if the recycling step succeeds. */
    method Init(st: Start) returns (started: bool)
      modifies this, ipt
      ensures started == RecycleOk(old(ipt.chains), st)
      ensures ipt.chains == StartedKernel(old(ipt.chains), st)
      ensures ipv4Rules == StartedRules(old(ipt.chains), st)
    {
      var masq, forwards := Masq(st), ForwardRules(st.node);
      MasqRulesManaged(st.cluster, st.node, st.randomFully, map[]);
      ForwardRulesManaged(st.node, map[]);
      ipv4Rules := masq;
      started := PrepareMasqRules(st);
      ipt.ClearChain("filter", FWD);
      if started && st.masqFirst {
        SetupIP4Tables(masq, ["nat"]);
      }
      SetupIP4Tables(forwards, ["filter"]);
      if started && !st.masqFirst {
        SetupIP4Tables(masq, ["nat"]);
      }
    }

    method CleanUp(order: seq<string>) returns (ok: bool)
      requires Specified(ipv4Rules) && IterationOf(order, TeardownTables(ipt.chains, ipv4Rules))
      modifies ipt
      ensures Applied(ipt.chains, ok) == if ipv4Rules == [] then Applied(old(ipt.chains), true)
                                         else TeardownOf(old(ipt.chains), ipv4Rules, order)
    {
      ok := true;
      if |ipv4Rules| > 0 {
        ok := TeardownIPTables(ipt, ipv4Rules, order);
      }
    }
  }

  // ---- the recycling step ----

  /** All masquerade rules live in the managed chain or jump to it. */
  lemma MasqNeedsChain(cluster: string, node: string, randomFully: bool, k: Kernel)
    ensures var rules := MasqRules(cluster, node, randomFully);
            && Specified(rules)
            && forall r | r in rules :: r.table == "nat" && (ChainMissing(k, r) <==> NAT !in k)
  {
    var rules := MasqRules(cluster, node, randomFully);
    MasqShaped(cluster, node, randomFully);
    assert Last(rules[0].spec) == POSTRTG;
    assert |"POSTROUTING"| == 11 && |FWD| == 13 && |POSTRTG| == 17;
    forall r | r in rules ensures r.spec != [] && ManagedChain(r) == Some(POSTRTG) && r.table == "nat" {
      var i :| 0 <= i < 7 && rules[i] == r;
    }
  }

  lemma NatTablesOnly(k: Kernel, rules: seq<Rule>)
    requires Specified(rules) && forall r | r in rules :: r.table == "nat"
    ensures IterationOf(NatOrder(k, rules), TeardownTables(k, rules))
  {
    assert TeardownTables(k, rules) <= Tables(rules) <= {"nat"};
  }

  lemma {:induction false} NoneTornDown(k: Kernel, rules: seq<Rule>, t: string)
    requires Specified(rules) && forall r | r in rules :: ChainMissing(k, r)
    ensures TeardownLines(k, rules, t) == []
  {
    if rules != [] {
      assert rules[|rules| - 1] in rules;
      NoneTornDown(k, rules[..|rules| - 1], t);
    }
  }

  /** What the teardown of a list without repetitions takes from a chain. */
  lemma {:induction false} ListedOnce(k: Kernel, rules: seq<Rule>, key: Key)
    requires Managed(rules)
    ensures NoDuplicates(Listed(k, rules, key))
    ensures forall x :: x in Listed(k, rules, key)
              <==> Rule(key.0, "-A", key.1, x) in rules && TornDown(k, Rule(key.0, "-A", key.1, x))
  {
    if rules != [] {
      var front, r := rules[..|rules| - 1], rules[|rules| - 1];
      assert rules == front + [r] && r in rules && r !in front;
      ListedOnce(k, front, key);
      assert r == Rule(r.table, "-A", r.chain, r.spec);
    }
  }

  /** So it is always carried out. */
  lemma DistinctTornDown(k: Kernel, rules: seq<Rule>, order: seq<string>)
    requires Managed(rules) && IterationOf(order, TeardownTables(k, rules))
    ensures TeardownOf(k, rules, order).ok
  {
    forall key | key in k ensures Enough(k, rules, key) {
      var xs := Listed(k, rules, key);
      ListedOnce(k, rules, key);
      NoDuplicatesCount(xs);
      forall x | x in xs ensures multiset(xs)[x] <= multiset(At(k, key))[x] {
        assert x in At(k, key);
      }
    }
    TeardownExactly(k, rules, order);
  }

  /** The kernel after a recycling step that succeeds. */
  function Recycled(k: Kernel, st: Start): Kernel {
    RecycleEffect(k, st);
    if Recycles(st) then TeardownOf(k, OldRules(st), NatOrder(k, OldRules(st))).kernel else k
  }

  /** The recycling step is not refused; without the managed chain it does nothing. */
  lemma RecycleEffect(k: Kernel, st: Start)
    ensures var rules := OldRules(st);
            && Managed(rules) && IterationOf(NatOrder(k, rules), TeardownTables(k, rules))
            && (LooksUp(k, rules) <==> NAT in k)
            && TeardownOf(k, rules, NatOrder(k, rules)).ok
            && (NAT !in k ==> TeardownOf(k, rules, NatOrder(k, rules)).kernel == k)
  {
    var rules := OldRules(st);
    MasqRulesManaged(NIL, st.prevNode, st.randomFully, k);
    MasqNeedsChain(NIL, st.prevNode, st.randomFully, k);
    NatTablesOnly(k, rules);
    assert rules[0] in rules;
    DistinctTornDown(k, rules, NatOrder(k, rules));
    if NAT !in k {
      forall t ensures TeardownLines(k, rules, t) == [] {
        NoneTornDown(k, rules, t);
      }
      assert TeardownTables(k, rules) == {};
    }
  }

  /** With a cluster network the step runs on every start, and fails exactly if there is a chain and no answer. */
  lemma AlwaysRecycles(k: Kernel, st: Start, cluster: Cidr.Net)
    requires Cidr.Wf(cluster) && st.cluster == Cidr.Print(cluster)
    ensures RecycleOk(k, st) <==> st.checks || NAT !in k
  {
    Cidr.ParsePrint(cluster);
    assert '/' !in NIL;
  }

  /** The jump to the managed chain, which is the same for all networks. */
  function Jump(): Spec { Comment("simplecni masq") + ["-j", POSTRTG] }

  function ForwardJump(): Spec { Comment("simplecni forward") + ["-j", FWD] }

  function Copies(k: Kernel, key: Key, x: Spec): nat { multiset(At(k, key))[x] }

  lemma JumpIsFirst(cluster: string, node: string, randomFully: bool, x: Spec)
    ensures Rule("nat", "-A", "POSTROUTING", x) in MasqRules(cluster, node, randomFully) <==> x == Jump()
  {
    var rules := MasqRules(cluster, node, randomFully);
    MasqShaped(cluster, node, randomFully);
    assert rules[0] == Rule("nat", "-A", "POSTROUTING", Jump()) && rules[0] in rules;
    assert |"POSTROUTING"| == 11 && |POSTRTG| == 17;
    if Rule("nat", "-A", "POSTROUTING", x) in rules {
      var i :| 0 <= i < 7 && rules[i] == Rule("nat", "-A", "POSTROUTING", x);
      assert i == 0;
    }
  }

  lemma ElsewhereKept(k: Kernel, st: Start, key: Key)
    requires key.0 != "nat"
    ensures At(Recycled(k, st), key) == At(k, key)
  {
    if Recycles(st) {
      var rules := OldRules(st);
      RecycleEffect(k, st);
      MasqNeedsChain(NIL, st.prevNode, st.randomFully, k);
      TeardownExactly(k, rules, NatOrder(k, rules));
      StrippedAt(k, TeardownOf(k, rules, NatOrder(k, rules)).kernel, rules, key);
      assert TeardownTables(k, rules) <= {"nat"};
      ListedIsInTables(k, rules, key);
    }
  }

  lemma OneTaken(s: seq<Spec>, xs: seq<Spec>, x: Spec)
    requires NoDuplicates(xs) && (x in xs ==> x in s)
    ensures multiset(RemoveFirsts(s, xs))[x] == multiset(s)[x] - (if x in xs then 1 else 0)
  {
    RemoveFirstsCount(s, xs);
    NoDuplicatesCount(xs);
    assert x in xs <==> multiset(xs)[x] > 0;
  }

  /** The teardown of a list without repetitions takes one copy of each rule that it deletes, and nothing else. */
  lemma TeardownTakes(k: Kernel, rules: seq<Rule>, order: seq<string>, key: Key, x: Spec)
    requires Managed(rules) && IterationOf(order, TeardownTables(k, rules))
    ensures var r := Rule(key.0, "-A", key.1, x);
            Copies(TeardownOf(k, rules, order).kernel, key, x)
            == Copies(k, key, x) - (if r in rules && TornDown(k, r) then 1 else 0)
  {
    DistinctTornDown(k, rules, order);
    TeardownExactly(k, rules, order);
    StrippedAt(k, TeardownOf(k, rules, order).kernel, rules, key);
    ListedOnce(k, rules, key);
    OneTaken(At(k, key), Listed(k, rules, key), x);
  }

  lemma JumpsTaken(k: Kernel, st: Start)
    requires Recycles(st)
    ensures Copies(Recycled(k, st), POSTROUTING, Jump())
            == Copies(k, POSTROUTING, Jump()) - (if NAT in k && Jump() in At(k, POSTROUTING) then 1 else 0)
  {
    var rules := OldRules(st);
    RecycleEffect(k, st);
    TeardownTakes(k, rules, NatOrder(k, rules), POSTROUTING, Jump());
    JumpIsFirst(NIL, st.prevNode, st.randomFully, Jump());
    MasqNeedsChain(NIL, st.prevNode, st.randomFully, k);
  }

  /**
   * The recycling step keeps all chains, those of other tables as they are, and takes one copy of the jump away if
   * the managed chain was there.
   */
  lemma RecycledChains(k: Kernel, st: Start)
    ensures Recycled(k, st).Keys == k.Keys
    ensures forall key: Key | key.0 != "nat" :: At(Recycled(k, st), key) == At(k, key)
    ensures var taken := if Recycles(st) && NAT in k && Jump() in At(k, POSTROUTING) then 1 else 0;
            Copies(Recycled(k, st), POSTROUTING, Jump()) == Copies(k, POSTROUTING, Jump()) - taken
  {
    forall key: Key | key.0 != "nat" ensures At(Recycled(k, st), key) == At(k, key) {
      ElsewhereKept(k, st, key);
    }
    if Recycles(st) {
      RecycleEffect(k, st);
      TeardownKeepsKeys(k, OldRules(st), NatOrder(k, OldRules(st)));
      JumpsTaken(k, st);
    }
  }

  // ---- the start ----

  /** The clean-up list after the start. */
  function StartedRules(k: Kernel, st: Start): seq<Rule> {
    var masq, forwards := Masq(st), ForwardRules(st.node);
    if !RecycleOk(k, st) then masq + forwards
    else if st.masqFirst then masq + masq + forwards
    else masq + forwards + masq
  }

  /** The kernel when the goroutines start. */
  function Cleared(k: Kernel, st: Start): Kernel {
    if RecycleOk(k, st) then Recycled(k, st)[NAT := []][FILTER := []] else k[FILTER := []]
  }

  function StartedKernel(k: Kernel, st: Start): Kernel {
    MasqRulesManaged(st.cluster, st.node, st.randomFully, map[]);
    ForwardRulesManaged(st.node, map[]);
    var k0, masq, forwards := Cleared(k, st), Masq(st), ForwardRules(st.node);
    if !RecycleOk(k, st) then BootstrapOf(k0, forwards, ["filter"]).kernel
    else if st.masqFirst then BootstrapOf(BootstrapOf(k0, masq, ["nat"]).kernel, forwards, ["filter"]).kernel
    else BootstrapOf(BootstrapOf(k0, forwards, ["filter"]).kernel, masq, ["nat"]).kernel
  }

  lemma BootstrapKeeps(k: Kernel, rules: seq<Rule>, order: seq<string>)
    requires Managed(rules) && Anchored(k, rules) && IterationOf(order, Tables(rules))
    ensures k.Keys <= BootstrapOf(k, rules, order).kernel.Keys
    ensures forall key: Key | key.0 !in Tables(rules) :: At(BootstrapOf(k, rules, order).kernel, key) == At(k, key)
  {
    BootstrapEffect(k, rules, order);
    forall key | key in k ensures key in Prepare(k, rules) {
      PrepareKeeps(k, rules, key);
    }
    forall key: Key | key.0 !in Tables(rules) ensures At(BootstrapOf(k, rules, order).kernel, key) == At(k, key) {
      OnElsewhere(rules, key);
      assert Rebuilt(At(k, key), []) == At(k, key);
    }
  }

  /** An empty chain is filled with exactly its rules. */
  lemma BootstrapFills(k: Kernel, rules: seq<Rule>, order: seq<string>, key: Key)
    requires Managed(rules) && Anchored(k, rules) && IterationOf(order, Tables(rules)) && At(k, key) == []
    ensures At(BootstrapOf(k, rules, order).kernel, key) == On(rules, key)
  {
    BootstrapEffect(k, rules, order);
    RemovedFromNothing(On(rules, key));
    assert At(BootstrapOf(k, rules, order).kernel, key) == Rebuilt(At(k, key), On(rules, key));
    assert [] + On(rules, key) == On(rules, key);
  }

  /** Two bootstraps on different tables: the first fills its empty chain and the second leaves it. */
  lemma FillThenOther(k: Kernel, rules: seq<Rule>, order: seq<string>, others: seq<Rule>, order1: seq<string>, key: Key)
    requires Managed(rules) && Anchored(k, rules) && IterationOf(order, Tables(rules)) && At(k, key) == []
    requires Managed(others) && Anchored(k, others) && IterationOf(order1, Tables(others)) && key.0 !in Tables(others)
    requires key in k
    ensures var k1 := BootstrapOf(BootstrapOf(k, rules, order).kernel, others, order1).kernel;
            key in k1 && At(k1, key) == On(rules, key)
    ensures var k1 := BootstrapOf(BootstrapOf(k, others, order1).kernel, rules, order).kernel;
            key in k1 && At(k1, key) == On(rules, key)
  {
    BootstrapKeeps(k, rules, order);
    BootstrapFills(k, rules, order, key);
    BootstrapKeeps(BootstrapOf(k, rules, order).kernel, others, order1);
    BootstrapKeeps(k, others, order1);
    BootstrapKeeps(BootstrapOf(k, others, order1).kernel, rules, order);
    BootstrapFills(BootstrapOf(k, others, order1).kernel, rules, order, key);
  }

  lemma ClearedChains(k: Kernel, st: Start)
    ensures k.Keys <= Cleared(k, st).Keys && At(Cleared(k, st), FILTER) == []
    ensures At(Cleared(k, st), FORWARD) == At(k, FORWARD)
    ensures RecycleOk(k, st) ==> NAT in Cleared(k, st) && At(Cleared(k, st), NAT) == []
                                 && At(Cleared(k, st), POSTROUTING) == At(Recycled(k, st), POSTROUTING)
    ensures !RecycleOk(k, st) ==> forall key: Key | key.0 == "nat" :: At(Cleared(k, st), key) == At(k, key)
  {
    RecycledChains(k, st);
    assert |"POSTROUTING"| == 11 && |"FORWARD"| == 7 && |FWD| == 13 && |POSTRTG| == 17;
    assert |"nat"| == 3 && |"filter"| == 6;
  }

  /**
   * After the start the managed chain of the nat table holds exactly the masquerade rules, in order, if the recycling
   * step succeeded; otherwise no chain of that table has changed.
   */
  lemma StartedChain(k: Kernel, st: Start)
    requires POSTROUTING in k && FORWARD in k
    ensures var k1 := StartedKernel(k, st);
            if RecycleOk(k, st) then NAT in k1 && At(k1, NAT) == On(Masq(st), NAT)
            else forall key: Key | key.0 == "nat" :: At(k1, key) == At(k, key)
  {
    var k0 := Cleared(k, st);
    ClearedChains(k, st);
    MasqRulesManaged(st.cluster, st.node, st.randomFully, k0);
    ForwardRulesManaged(st.node, k0);
    if RecycleOk(k, st) {
      FillThenOther(k0, Masq(st), ["nat"], ForwardRules(st.node), ["filter"], NAT);
    } else {
      BootstrapKeeps(k0, ForwardRules(st.node), ["filter"]);
    }
  }

  /** The packets that a started node masquerades in its managed chain, for the networks of the cluster and its pods. */
  lemma StartedMasquerades(k: Kernel, cluster: Cidr.Net, pods: Cidr.Net, st: Start, p: Packet)
    requires POSTROUTING in k && FORWARD in k && Prefixes(cluster, pods) && RecycleOk(k, st)
    requires st.cluster == Cidr.Print(cluster) && st.node == Cidr.Print(pods)
    ensures Masquerades(Iptables(), At(StartedKernel(k, st), NAT), p)
      <==> !Marked(p) && !Cidr.In(pods, p.dst) && !(Cidr.In(pods, p.src) && Cidr.In(cluster, p.dst))
           && (if Cidr.In(cluster, p.src) then !Cidr.In(MULTICAST, p.dst) else Cidr.In(cluster, p.dst))
  {
    StartedChain(k, st);
    IptablesMasqueraded(cluster, pods, st.randomFully, p);
  }

  /** The whole verdict of that chain. */
  lemma StartedVerdict(k: Kernel, cluster: Cidr.Net, pods: Cidr.Net, st: Start, p: Packet)
    requires POSTROUTING in k && FORWARD in k && Prefixes(cluster, pods) && RecycleOk(k, st)
    requires st.cluster == Cidr.Print(cluster) && st.node == Cidr.Print(pods)
    ensures VerdictOf(Iptables(), At(StartedKernel(k, st), NAT), p)
      == Some(if Marked(p) || Cidr.In(pods, p.dst) || (Cidr.In(pods, p.src) && Cidr.In(cluster, p.dst)) then "RETURN"
              else if (if Cidr.In(cluster, p.src) then !Cidr.In(MULTICAST, p.dst) else Cidr.In(cluster, p.dst))
                   then "MASQUERADE"
              else "")
  {
    StartedChain(k, st);
    IptablesVerdictOf(cluster, pods, st.randomFully, p);
  }

  /** After the start, whatever the managed forward chain held before, it holds exactly the forward rules, in order. */
  lemma StartedForwardChain(k: Kernel, st: Start)
    requires POSTROUTING in k && FORWARD in k
    ensures var k1 := StartedKernel(k, st); FILTER in k1 && At(k1, FILTER) == On(ForwardRules(st.node), FILTER)
  {
    var k0, masq, forwards := Cleared(k, st), Masq(st), ForwardRules(st.node);
    ClearedChains(k, st);
    MasqRulesManaged(st.cluster, st.node, st.randomFully, k0);
    ForwardRulesManaged(st.node, k0);
    if RecycleOk(k, st) {
      FillThenOther(k0, forwards, ["filter"], masq, ["nat"], FILTER);
    } else {
      BootstrapKeeps(k0, forwards, ["filter"]);
      BootstrapFills(k0, forwards, ["filter"], FILTER);
    }
  }

  /** A started node accepts in its managed forward chain exactly the packets from and to its pods. */
  lemma StartedForwards(k: Kernel, pods: Cidr.Net, st: Start, p: Packet)
    requires POSTROUTING in k && FORWARD in k
    requires Cidr.Wf(pods) && Cidr.Masked(pods) == pods && st.node == Cidr.Print(pods)
    ensures VerdictOf(Iptables(), At(StartedKernel(k, st), FILTER), p)
            == Some(if Cidr.In(pods, p.src) || Cidr.In(pods, p.dst) then "ACCEPT" else "")
  {
    StartedForwardChain(k, st);
    ForwardVerdict(pods, p);
  }

  predicate EndsWith(k: Kernel, key: Key, x: Spec) { At(k, key) != [] && At(k, key)[|At(k, key)| - 1] == x }

  /** A bootstrap ends a chain with the rule of the list, and leaves the ends of other tables alone. */
  lemma BootstrapEnds(k: Kernel, rules: seq<Rule>, order: seq<string>, key: Key, x: Spec)
    requires Managed(rules) && Anchored(k, rules) && IterationOf(order, Tables(rules))
    ensures On(rules, key) == [x] ==> EndsWith(BootstrapOf(k, rules, order).kernel, key, x)
    ensures EndsWith(k, key, x) && key.0 !in Tables(rules) ==> EndsWith(BootstrapOf(k, rules, order).kernel, key, x)
  {
    BootstrapEffect(k, rules, order);
    BootstrapKeeps(k, rules, order);
    assert At(BootstrapOf(k, rules, order).kernel, key) == Rebuilt(At(k, key), On(rules, key));
  }

  /** The chain ends with a rule that sends every packet to the other chain. */
  ghost predicate EndsWithJump(k: Kernel, key: Key, target: string) {
    exists x :: EndsWith(k, key, x) && Iptables()(x) == Plain(target)
  }

  lemma {:induction false} OnHead(rules: seq<Rule>, key: Key)
    requires rules != [] && (rules[0].table, rules[0].chain) == key
    requires forall i | 1 <= i < |rules| :: (rules[i].table, rules[i].chain) != key
    ensures On(rules, key) == [rules[0].spec]
  {
    if |rules| == 1 {
      assert rules[..0] == [];
    } else {
      OnHead(rules[..|rules| - 1], key);
    }
  }

  lemma JumpLists(st: Start)
    ensures On(Masq(st), POSTROUTING) == [Jump()] && On(ForwardRules(st.node), FORWARD) == [ForwardJump()]
    ensures Iptables()(Jump()) == Plain(POSTRTG) && Iptables()(ForwardJump()) == Plain(FWD)
  {
    assert |"POSTROUTING"| == 11 && |"FORWARD"| == 7 && |FWD| == 13 && |POSTRTG| == 17;
    MasqShaped(st.cluster, st.node, st.randomFully);
    OnHead(Masq(st), POSTROUTING);
    OnHead(ForwardRules(st.node), FORWARD);
    ReadComment(Cidr.Parse, "simplecni masq", ["-j", POSTRTG]);
    ReadComment(Cidr.Parse, "simplecni forward", ["-j", FWD]);
  }

  /** After the start the built-in chains end with jumps to the managed ones, POSTROUTING if the loop was started. */
  lemma StartedJumps(k: Kernel, st: Start)
    requires POSTROUTING in k && FORWARD in k
    ensures EndsWithJump(StartedKernel(k, st), FORWARD, FWD)
    ensures RecycleOk(k, st) ==> EndsWithJump(StartedKernel(k, st), POSTROUTING, POSTRTG)
  {
    var k0, masq, forwards := Cleared(k, st), Masq(st), ForwardRules(st.node);
    ClearedChains(k, st);
    JumpLists(st);
    MasqRulesManaged(st.cluster, st.node, st.randomFully, k0);
    ForwardRulesManaged(st.node, k0);
    if !RecycleOk(k, st) {
      BootstrapEnds(k0, forwards, ["filter"], FORWARD, ForwardJump());
    } else if st.masqFirst {
      EndsTwice(k0, masq, ["nat"], POSTROUTING, Jump(), forwards, ["filter"], FORWARD, ForwardJump());
    } else {
      EndsTwice(k0, forwards, ["filter"], FORWARD, ForwardJump(), masq, ["nat"], POSTROUTING, Jump());
    }
  }

  lemma StillAnchored(k: Kernel, rules: seq<Rule>, order: seq<string>, others: seq<Rule>)
    requires Managed(rules) && Anchored(k, rules) && IterationOf(order, Tables(rules)) && Anchored(k, others)
    ensures Anchored(BootstrapOf(k, rules, order).kernel, others)
  {
    BootstrapKeeps(k, rules, order);
  }

  lemma EndsTwice(k: Kernel, a: seq<Rule>, orderA: seq<string>, keyA: Key, x: Spec,
                  b: seq<Rule>, orderB: seq<string>, keyB: Key, y: Spec)
    requires Managed(a) && Anchored(k, a) && IterationOf(orderA, Tables(a)) && On(a, keyA) == [x]
    requires Managed(b) && Anchored(k, b) && IterationOf(orderB, Tables(b)) && On(b, keyB) == [y]
    requires keyA.0 !in Tables(b)
    ensures var k1 := BootstrapOf(BootstrapOf(k, a, orderA).kernel, b, orderB).kernel;
            EndsWith(k1, keyA, x) && EndsWith(k1, keyB, y)
  {
    var k0 := BootstrapOf(k, a, orderA).kernel;
    BootstrapEnds(k, a, orderA, keyA, x);
    StillAnchored(k, a, orderA, b);
    BootstrapEnds(k0, b, orderB, keyB, y);
    BootstrapEnds(k0, b, orderB, keyA, x);
  }

  // ---- the clean-up ----

  lemma InForceOnce(rules: seq<Rule>, r: Rule)
    requires Managed(rules) && r in rules
    ensures multiset(On(rules, (r.table, r.chain)))[r.spec] == 1
    ensures r.spec in On(rules, (r.table, r.chain))
  {
    var xs := On(rules, (r.table, r.chain));
    OnMembers(rules, (r.table, r.chain), r.spec);
    assert r == Rule(r.table, "-A", r.chain, r.spec);
    OnDistinct(rules, (r.table, r.chain));
    NoDuplicatesCount(xs);
    assert r.spec in multiset(xs);
  }

  lemma MasqListedTwice(k: Kernel, st: Start, r: Rule)
    requires RecycleOk(k, st) && r in Masq(st)
    ensures r in StartedRules(k, st) && multiset(StartedRules(k, st))[r] >= 2
  {
    assert multiset(Masq(st))[r] >= 1;
  }

  /** The mark rule of the managed chain. */
  lemma MarkRule(st: Start)
    ensures Masq(st)[1] in Masq(st) && (Masq(st)[1].table, Masq(st)[1].chain) == NAT && Masq(st)[1].spec != []
  {
    MasqShaped(st.cluster, st.node, st.randomFully);
  }

  lemma MarkRuleThere(k: Kernel, st: Start)
    requires POSTROUTING in k && FORWARD in k && RecycleOk(k, st) && Masq(st)[1].spec != []
    ensures TornDown(StartedKernel(k, st), Masq(st)[1])
    ensures multiset(At(StartedKernel(k, st), NAT))[Masq(st)[1].spec] == 1
  {
    MarkRule(st);
    StartedChain(k, st);
    MasqRulesManaged(st.cluster, st.node, st.randomFully, k);
    MasqNeedsChain(st.cluster, st.node, st.randomFully, StartedKernel(k, st));
    InForceOnce(Masq(st), Masq(st)[1]);
  }

  lemma SeparateManaged(a: seq<Rule>, b: seq<Rule>)
    requires Managed(a) && Managed(b) && Tables(a) !! Tables(b)
    ensures Managed(a + b)
  {
    var s := a + b;
    forall i, j | 0 <= i < j < |s| ensures s[i] != s[j] {
      if i < |a| <= j {
        assert s[i].table in Tables(a) && s[j].table in Tables(b);
      }
    }
  }

  /** The masquerade and the forward rules together have no repetition. */
  lemma ListsManaged(st: Start)
    ensures Managed(Masq(st) + ForwardRules(st.node))
  {
    MasqRulesManaged(st.cluster, st.node, st.randomFully, map[]);
    ForwardRulesManaged(st.node, map[]);
    SeparateManaged(Masq(st), ForwardRules(st.node));
  }

  /**
   * Init stores the masquerade rules and their goroutine appends them again. So a clean-up right after a start is
   * refused, in whatever order the tables come, exactly if the recycling step succeeded, and then every chain of the
   * nat table, with all the masquerade rules, stays as it is.
   */
  lemma CleanUpLeavesMasquerade(k: Kernel, st: Start, order: seq<string>)
    requires POSTROUTING in k && FORWARD in k && Specified(StartedRules(k, st))
    requires IterationOf(order, TeardownTables(StartedKernel(k, st), StartedRules(k, st)))
    ensures var k1 := StartedKernel(k, st);
            var after := TeardownOf(k1, StartedRules(k, st), order);
            && (after.ok <==> !RecycleOk(k, st))
            && (RecycleOk(k, st) ==> At(after.kernel, NAT) == On(Masq(st), NAT)
                                     && forall key: Key | key.0 == "nat" :: At(after.kernel, key) == At(k1, key))
  {
    var k1 := StartedKernel(k, st);
    if RecycleOk(k, st) {
      var r := Masq(st)[1];
      MarkRule(st);
      MarkRuleThere(k, st);
      MasqListedTwice(k, st, r);
      RepeatedRuleRefused(k1, StartedRules(k, st), order, r);
      StartedChain(k, st);
    } else {
      ListsManaged(st);
      DistinctTornDown(k1, StartedRules(k, st), order);
    }
  }
}
