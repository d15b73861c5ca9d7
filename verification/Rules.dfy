/** The rule lists of the iptables back end. */
module Rules {
  import opened Common
  import opened IpTables
  import opened RuleOrder

  const MARK := "0x4000/0x4000"
  const NAT: Key := ("nat", POSTRTG)

  function Nat(chain: string, spec: Spec): Rule { Rule("nat", "-A", chain, spec) }

  function Comment(text: string): Spec { ["-m", "comment", "--comment", text] }

  /** MASQUERADE, with random ports if the iptables binary can do that. */
  function MasqueradeTarget(randomFully: bool): Spec {
    ["-j", "MASQUERADE"] + if randomFully then ["--random-fully"] else []
  }

  function MasqRules(cluster: string, pod: string, randomFully: bool): seq<Rule> {
    [ Nat("POSTROUTING", Comment("simplecni masq") + ["-j", POSTRTG]),
      Nat(POSTRTG, ["-m", "mark", "--mark", MARK] + Comment("simplecni masq mask") + ["-j", "RETURN"]),
      Nat(POSTRTG, ["-s", pod, "-d", cluster] + Comment("simplecni masq pod to cluster") + ["-j", "RETURN"]),
      Nat(POSTRTG, ["-s", cluster, "-d", pod] + Comment("simplecni masq cluster to pod") + ["-j", "RETURN"]),
      Nat(POSTRTG, ["!", "-s", cluster, "-d", pod] + Comment("simplecni masq") + ["-j", "RETURN"]),
      Nat(POSTRTG, ["-s", cluster, "!", "-d", "224.0.0.0/4"] + Comment("simplecni masq")
                   + MasqueradeTarget(randomFully)),
      Nat(POSTRTG, ["!", "-s", cluster, "-d", cluster] + Comment("simplecni masq") + MasqueradeTarget(randomFully)) ]
  }

  function MasqIP6Rules(cluster: string, pod: string, randomFully: bool): seq<Rule> {
    [ Nat("POSTROUTING", Comment("simplecni masq") + ["-j", POSTRTG]),
      Nat(POSTRTG, ["-m", "mark", "--mark", MARK] + Comment("simplecni masq") + ["-j", "RETURN"]),
      Nat(POSTRTG, ["-s", pod, "-d", cluster] + Comment("simplecni masq") + ["-j", "RETURN"]),
      Nat(POSTRTG, ["-s", cluster, "-d", pod] + Comment("simplecni masq") + ["-j", "RETURN"]),
      Nat(POSTRTG, ["!", "-s", cluster, "-d", pod] + Comment("simplecni masq") + ["-j", "RETURN"]),
      Nat(POSTRTG, ["-s", cluster, "!", "-d", "ff00::/8"] + Comment("simplecni masq") + MasqueradeTarget(randomFully)),
      Nat(POSTRTG, ["!", "-s", cluster, "-d", cluster] + Comment("simplecni masq") + MasqueradeTarget(randomFully)) ]
  }

  function ForwardRules(cluster: string): seq<Rule> {
    [ Rule("filter", "-A", "FORWARD", Comment("simplecni forward") + ["-j", FWD]),
      Rule("filter", "-A", FWD, ["-s", cluster] + Comment("simplecni forward") + ["-j", "ACCEPT"]),
      Rule("filter", "-A", FWD, ["-d", cluster] + Comment("simplecni forward") + ["-j", "ACCEPT"]) ]
  }

  /** The place of a rule in the masquerade lists, read off its tokens. */
  function Place(r: Rule, pod: string): nat
    requires r.spec != []
  {
    if r.chain != POSTRTG then 0
    else if r.spec[0] == "-m" then 1
    else if r.spec[0] == "!" then if r.spec[|r.spec| - 1] == "RETURN" then 4 else 6
    else if |r.spec| < 3 || r.spec[2] == "!" then 5
    else if r.spec[|r.spec| - 3] == "simplecni masq pod to cluster" then 2
    else if r.spec[|r.spec| - 3] == "simplecni masq cluster to pod" then 3
    else if r.spec[1] == pod then 2
    else 3
  }

  lemma PlacesDiffer(rules: seq<Rule>, pod: string)
    requires Specified(rules) && forall i | 0 <= i < |rules| :: Place(rules[i], pod) == i
    ensures NoDuplicates(rules)
  {
  }

  lemma MasqPlaces(cluster: string, pod: string, randomFully: bool)
    ensures var s := MasqRules(cluster, pod, randomFully);
            Specified(s) && forall i | 0 <= i < 7 :: Place(s[i], pod) == i
  {
    var s := MasqRules(cluster, pod, randomFully);
    assert Place(s[0], pod) == 0;
    assert Place(s[1], pod) == 1;
    assert Place(s[2], pod) == 2;
    assert Place(s[3], pod) == 3;
    assert Place(s[4], pod) == 4;
    assert Place(s[5], pod) == 5;
    assert Place(s[6], pod) == 6;
  }

  lemma MasqIP6Places(cluster: string, pod: string, randomFully: bool)
    requires cluster != pod
    ensures var s := MasqIP6Rules(cluster, pod, randomFully);
            Specified(s) && forall i | 0 <= i < 7 :: Place(s[i], pod) == i
  {
    var s := MasqIP6Rules(cluster, pod, randomFully);
    assert Place(s[0], pod) == 0;
    assert Place(s[1], pod) == 1;
    assert Place(s[2], pod) == 2;
    assert Place(s[3], pod) == 3;
    assert Place(s[4], pod) == 4;
    assert Place(s[5], pod) == 5;
    assert Place(s[6], pod) == 6;
  }

  lemma ForwardPlaces(cluster: string)
    ensures var s := ForwardRules(cluster);
            Specified(s) && s[0] != s[1] && s[0] != s[2] && s[1] != s[2]
  {
    var s := ForwardRules(cluster);
    assert s[0].chain == "FORWARD" && s[1].chain == FWD && s[2].chain == FWD;
    assert s[1].spec[0] == "-s" && s[2].spec[0] == "-d";
  }

  /** Rules of the nat table in POSTROUTING, jumping to the managed chain, or in the managed chain. */
  ghost predicate NatShaped(rules: seq<Rule>) {
    && |rules| == 7
    && (forall i | 0 <= i < 7 :: rules[i].table == "nat" && rules[i].action == "-A" && rules[i].spec != [])
    && rules[0].chain == "POSTROUTING"
    && (forall i | 1 <= i < 7 :: rules[i].chain == POSTRTG && NotToForward(rules[i].spec))
  }

  lemma NatShapedAnchors(rules: seq<Rule>, k: Kernel)
    requires NatShaped(rules)
    ensures Tables(rules) == {"nat"}
    ensures Anchored(k, rules) <==> ("nat", "POSTROUTING") in k
  {
    assert rules[0] in rules;
    forall r | r in rules ensures r.table == "nat" {
    }
  }

  function Last(s: Spec): string
    requires s != []
  {
    s[|s| - 1]
  }

  lemma MasqueradeLast(randomFully: bool, front: Spec)
    ensures NotToForward(front + MasqueradeTarget(randomFully)) && NotToForward(front + ["-j", "RETURN"])
  {
    assert Last(MasqueradeTarget(randomFully)) == if randomFully then "--random-fully" else "MASQUERADE";
    assert Last(front + MasqueradeTarget(randomFully)) == Last(MasqueradeTarget(randomFully));
    assert Last(front + ["-j", "RETURN"]) == "RETURN";
    assert |"--random-fully"| == 14 && |"RETURN"| == 6 && |"MASQUERADE"| == 10 && |FWD| == 13;
  }

  predicate NotToForward(s: Spec) { s != [] && Last(s) != FWD }

  lemma MasqShaped(cluster: string, pod: string, randomFully: bool)
    ensures NatShaped(MasqRules(cluster, pod, randomFully))
  {
    MasqueradeLast(randomFully, ["-m", "mark", "--mark", MARK] + Comment("simplecni masq mask"));
    MasqueradeLast(randomFully, ["-s", pod, "-d", cluster] + Comment("simplecni masq pod to cluster"));
    MasqueradeLast(randomFully, ["-s", cluster, "-d", pod] + Comment("simplecni masq cluster to pod"));
    MasqueradeLast(randomFully, ["!", "-s", cluster, "-d", pod] + Comment("simplecni masq"));
    MasqueradeLast(randomFully, ["-s", cluster, "!", "-d", "224.0.0.0/4"] + Comment("simplecni masq"));
    MasqueradeLast(randomFully, ["!", "-s", cluster, "-d", cluster] + Comment("simplecni masq"));
  }

  lemma MasqIP6Shaped(cluster: string, pod: string, randomFully: bool)
    ensures NatShaped(MasqIP6Rules(cluster, pod, randomFully))
  {
    MasqueradeLast(randomFully, ["-m", "mark", "--mark", MARK] + Comment("simplecni masq"));
    MasqueradeLast(randomFully, ["-s", pod, "-d", cluster] + Comment("simplecni masq"));
    MasqueradeLast(randomFully, ["-s", cluster, "-d", pod] + Comment("simplecni masq"));
    MasqueradeLast(randomFully, ["!", "-s", cluster, "-d", pod] + Comment("simplecni masq"));
    MasqueradeLast(randomFully, ["-s", cluster, "!", "-d", "ff00::/8"] + Comment("simplecni masq"));
    MasqueradeLast(randomFully, ["!", "-s", cluster, "-d", cluster] + Comment("simplecni masq"));
  }

  /** The IPv4 masquerade rules are pairwise distinct for any two networks, and need only the POSTROUTING chain. */
  lemma MasqRulesManaged(cluster: string, pod: string, randomFully: bool, k: Kernel)
    ensures Managed(MasqRules(cluster, pod, randomFully))
    ensures Tables(MasqRules(cluster, pod, randomFully)) == {"nat"}
    ensures Anchored(k, MasqRules(cluster, pod, randomFully)) <==> ("nat", "POSTROUTING") in k
  {
    MasqShaped(cluster, pod, randomFully);
    NatShapedAnchors(MasqRules(cluster, pod, randomFully), k);
    MasqPlaces(cluster, pod, randomFully);
    PlacesDiffer(MasqRules(cluster, pod, randomFully), pod);
  }

  /** The IPv6 rules share one comment, so they are distinct exactly if the two networks print differently. */
  lemma MasqIP6RulesManaged(cluster: string, pod: string, randomFully: bool, k: Kernel)
    ensures Managed(MasqIP6Rules(cluster, pod, randomFully)) <==> cluster != pod
    ensures Tables(MasqIP6Rules(cluster, pod, randomFully)) == {"nat"}
    ensures Anchored(k, MasqIP6Rules(cluster, pod, randomFully)) <==> ("nat", "POSTROUTING") in k
  {
    var s := MasqIP6Rules(cluster, pod, randomFully);
    MasqIP6Shaped(cluster, pod, randomFully);
    NatShapedAnchors(s, k);
    if cluster != pod {
      MasqIP6Places(cluster, pod, randomFully);
      PlacesDiffer(s, pod);
    } else {
      assert s[2] == s[3];
    }
  }

  /** The forward rules are distinct and need only the FORWARD chain. */
  lemma ForwardRulesManaged(cluster: string, k: Kernel)
    ensures Managed(ForwardRules(cluster))
    ensures Tables(ForwardRules(cluster)) == {"filter"}
    ensures Anchored(k, ForwardRules(cluster)) <==> ("filter", "FORWARD") in k
  {
    var s := ForwardRules(cluster);
    ForwardPlaces(cluster);
    assert s[0] in s && s[1] in s;
    forall r | r in s ensures r.table == "filter" && r.action == "-A" {
    }
    assert |s[1].spec| == 8 && s[1].spec[7] == "ACCEPT" && |s[2].spec| == 8 && s[2].spec[7] == "ACCEPT";
  }
}
