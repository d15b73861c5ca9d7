/** The nftables back end, and how it classifies packets compared with the iptables back end. */
module Nftables {
  import opened Common
  import opened IpTables
  import opened Rules
  import opened Cidr
  import opened Masquerade

  const CHAIN := "postrtg"

  datatype Op = AddChain(name: string) | Flush(name: string) | AddRule(name: string, rule: Spec)

  type Chains = map<string, seq<Spec>>

  function RunOp(k: Chains, op: Op): Option<Chains> {
    match op
    case AddChain(c) => Some(if c in k then k else k[c := []])
    case Flush(c) => if c in k then Some(k[c := []]) else None
    case AddRule(c, r) => if c in k then Some(k[c := k[c] + [r]]) else None
  }

  /** A transaction runs as a whole or not at all. */
  function RunOps(k: Chains, ops: seq<Op>): Option<Chains> {
    if ops == [] then Some(k)
    else match RunOps(k, ops[..|ops| - 1])
      case None => None
      case Some(k1) => RunOp(k1, ops[|ops| - 1])
  }

  /** The operations collected for one run. */
  class Transaction {
    var ops: seq<Op>

    constructor ()
      ensures ops == []
    {
      ops := [];
    }

    method Add(op: Op)
      modifies this
      ensures ops == old(ops) + [op]
    {
      ops := ops + [op];
    }
  }

  function MasqueradeWords(randomFully: bool): Spec {
    ["masquerade"] + if randomFully then ["fully-random"] else []
  }

  datatype Family = IPv4 | IPv6

  function Word(family: Family): string { if family.IPv4? then "ip" else "ip6" }

  function MulticastOf(family: Family): string { if family.IPv4? then "224.0.0.0/4" else "ff00::/8" }

  /** The rules for a cluster and a pod network, as the parameters are called. */
  function FamilyRules(family: Family, cluster: string, pod: string, randomFully: bool): seq<Spec> {
    var ip := Word(family);
    [ ["meta", "mark", "0x4000", "return"],
      [ip, "saddr", pod, ip, "daddr", cluster, "return"],
      [ip, "saddr", cluster, ip, "daddr", pod, "return"],
      [ip, "saddr", "!=", pod, ip, "daddr", cluster, "return"],
      [ip, "saddr", cluster, ip, "daddr", "!=", MulticastOf(family)] + MasqueradeWords(randomFully),
      [ip, "saddr", "!=", cluster, ip, "daddr", cluster] + MasqueradeWords(randomFully) ]
  }

  function NftRules(cluster: string, pod: string, randomFully: bool): seq<Spec> {
    FamilyRules(IPv4, cluster, pod, randomFully)
  }

  /** The text of a network, also of a missing one. */
  function NetText(n: Option<Net>): string
    requires n.Some? ==> Wf(n.value)
  {
    match n case None => "<nil>" case Some(net) => Print(net)
  }

  function AddRules(rules: seq<Spec>): seq<Op> { seq(|rules|, i requires 0 <= i < |rules| => AddRule(CHAIN, rules[i])) }

  lemma {:induction false} RunAddRules(k: Chains, ops: seq<Op>, rules: seq<Spec>)
    requires RunOps(k, ops).Some? && CHAIN in RunOps(k, ops).value
    ensures var k1 := RunOps(k, ops).value;
            RunOps(k, ops + AddRules(rules)) == Some(k1[CHAIN := k1[CHAIN] + rules])
  {
    var k1 := RunOps(k, ops).value;
    if rules == [] {
      assert ops + AddRules(rules) == ops;
      assert k1[CHAIN] + rules == k1[CHAIN];
      assert k1[CHAIN := k1[CHAIN] + rules] == k1;
    } else {
      var front, r := rules[..|rules| - 1], rules[|rules| - 1];
      RunAddRules(k, ops, front);
      AddRulesMore(ops, front, r);
      assert front + [r] == rules;
      RunOneMore(k, ops + AddRules(front), k1, front, r);
    }
  }

  lemma AddRulesMore(ops: seq<Op>, front: seq<Spec>, r: Spec)
    ensures ops + AddRules(front + [r]) == (ops + AddRules(front)) + [AddRule(CHAIN, r)]
  {
    assert AddRules(front + [r]) == AddRules(front) + [AddRule(CHAIN, r)];
  }

  lemma RunOneMore(k: Chains, ops: seq<Op>, k1: Chains, front: seq<Spec>, r: Spec)
    requires CHAIN in k1 && RunOps(k, ops) == Some(k1[CHAIN := k1[CHAIN] + front])
    ensures RunOps(k, ops + [AddRule(CHAIN, r)]) == Some(k1[CHAIN := k1[CHAIN] + (front + [r])])
  {
    assert (ops + [AddRule(CHAIN, r)])[..|ops|] == ops;
    assert k1[CHAIN] + front + [r] == k1[CHAIN] + (front + [r]);
    assert k1[CHAIN := k1[CHAIN] + front][CHAIN := k1[CHAIN] + (front + [r])] == k1[CHAIN := k1[CHAIN] + (front + [r])];
  }

  class NFTablesManager {
    var chains: Chains
    var chains6: Chains
    var nodecidr: Option<Net>
    var clustercidr: Net
    var hasNode6: bool
    var randomfullySupported: bool

    constructor (chains: Chains, chains6: Chains, nodecidr: Option<Net>, clustercidr: Net,
                 hasNode6: bool, randomfullySupported: bool)
      ensures this.chains == chains && this.chains6 == chains6
      ensures this.nodecidr == nodecidr && this.clustercidr == clustercidr && this.hasNode6 == hasNode6
      ensures this.randomfullySupported == randomfullySupported
    {
      this.chains, this.chains6 := chains, chains6;
      this.nodecidr, this.clustercidr, this.hasNode6 := nodecidr, clustercidr, hasNode6;
      this.randomfullySupported := randomfullySupported;
    }

    method AddMasqRules(tx: Transaction, clusterCidr: string, podCidr: string, family: Family)
      modifies tx
      ensures tx.ops == old(tx.ops) + AddRules(FamilyRules(family, clusterCidr, podCidr, randomfullySupported))
    {
      var masquerade := MasqueradeWords(randomfullySupported);
      var ip := Word(family);
      tx.Add(AddRule(CHAIN, ["meta", "mark", "0x4000", "return"]));
      tx.Add(AddRule(CHAIN, [ip, "saddr", podCidr, ip, "daddr", clusterCidr, "return"]));
      tx.Add(AddRule(CHAIN, [ip, "saddr", clusterCidr, ip, "daddr", podCidr, "return"]));
      tx.Add(AddRule(CHAIN, [ip, "saddr", "!=", podCidr, ip, "daddr", clusterCidr, "return"]));
      tx.Add(AddRule(CHAIN, [ip, "saddr", clusterCidr, ip, "daddr", "!=", MulticastOf(family)] + masquerade));
      tx.Add(AddRule(CHAIN, [ip, "saddr", "!=", clusterCidr, ip, "daddr", clusterCidr] + masquerade));
    }

    /** The operations for one family: the chain is added, emptied and filled. */
    method MasqTransaction(family: Family) returns (ops: seq<Op>)
      requires Wf(clustercidr) && (nodecidr.Some? ==> Wf(nodecidr.value))
      ensures forall k :: RunOps(k, ops)
                == Some(k[CHAIN := FamilyRules(family, NetText(nodecidr), Print(clustercidr), randomfullySupported)])
    {
      var tx := new Transaction();
      tx.Add(AddChain(CHAIN));
      tx.Add(Flush(CHAIN));
      assert tx.ops == [AddChain(CHAIN), Flush(CHAIN)];
      AddMasqRules(tx, NetText(nodecidr), Print(clustercidr), family);
      ops := tx.ops;
      forall k ensures RunOps(k, ops)
                == Some(k[CHAIN := FamilyRules(family, NetText(nodecidr), Print(clustercidr), randomfullySupported)]) {
        FlushThenFill(k, FamilyRules(family, NetText(nodecidr), Print(clustercidr), randomfullySupported));
      }
    }

    /**
     * Whatever the chains held, they then hold the masquerade rules, with the node's network in the place of the
     * cluster's. The IPv6 table gets the IPv4 networks; accepts6 says whether nft takes them.
     */
    method SetupAndEnsureMasqRules(accepts6: bool) returns (ok: bool)
      requires Wf(clustercidr) && (nodecidr.Some? ==> Wf(nodecidr.value))
      modifies this
      ensures ok == (!hasNode6 || accepts6)
      ensures nodecidr == old(nodecidr) && clustercidr == old(clustercidr) && hasNode6 == old(hasNode6)
      ensures randomfullySupported == old(randomfullySupported)
      ensures chains == if nodecidr.None? then old(chains)
                        else old(chains)[CHAIN := NftRules(Print(nodecidr.value), Print(clustercidr),
                                                           randomfullySupported)]
      ensures chains6 == if !hasNode6 || !accepts6 then old(chains6)
                         else old(chains6)[CHAIN := FamilyRules(IPv6, NetText(nodecidr), Print(clustercidr),
                                                                randomfullySupported)]
    {
      if nodecidr.Some? {
        var ops := MasqTransaction(IPv4);
        chains := RunOps(chains, ops).value;
      }
      if hasNode6 {
        var ops := MasqTransaction(IPv6);
        if !accepts6 {
          return false;
        }
        chains6 := RunOps(chains6, ops).value;
      }
      return true;
    }
  }

  lemma FlushedChain(k: Chains)
    ensures RunOps(k, [AddChain(CHAIN), Flush(CHAIN)]) == Some(k[CHAIN := []])
  {
    var ops := [AddChain(CHAIN), Flush(CHAIN)];
    assert ops[..1] == [AddChain(CHAIN)] && ops[..1][..0] == [];
    var k1 := if CHAIN in k then k else k[CHAIN := []];
    assert RunOps(k, ops[..1]) == Some(k1);
    assert k1[CHAIN := []] == k[CHAIN := []];
  }

  lemma FlushThenFill(k: Chains, rules: seq<Spec>)
    ensures RunOps(k, [AddChain(CHAIN), Flush(CHAIN)] + AddRules(rules)) == Some(k[CHAIN := rules])
  {
    FlushedChain(k);
    RunAddRules(k, [AddChain(CHAIN), Flush(CHAIN)], rules);
    assert [] + rules == rules;
    assert k[CHAIN := []][CHAIN := rules] == k[CHAIN := rules];
  }

  // ---- reading nftables rules ----

  /** The meaning of a rule: verdict words, a mark test and address tests. */
  function ReadNft(parse: NetParser, s: Spec): Option<Clause> {
    if s == [] then None
    else if s[0] == "return" then Plain("RETURN")
    else if s[0] == "masquerade" then Plain("MASQUERADE")
    else if |s| < 3 then None
    else if s[0] == "meta" then
      match ReadNft(parse, s[3..])
      case None => None
      case Some(c) => if s[1] == "mark" && s[2] == "0x4000" then Some(c.(mark := Some((0x4000, 0xFFFF_FFFF)))) else None
    else if s[0] != "ip" then None
    else if s[2] == "!=" then
      if |s| < 4 || parse(s[3]).None? then None
      else if s[1] == "saddr" then WithSrc(ReadNft(parse, s[4..]), Outside(parse(s[3]).value))
      else if s[1] == "daddr" then WithDst(ReadNft(parse, s[4..]), Outside(parse(s[3]).value))
      else None
    else if parse(s[2]).None? then None
    else if s[1] == "saddr" then WithSrc(ReadNft(parse, s[3..]), Inside(parse(s[2]).value))
    else if s[1] == "daddr" then WithDst(ReadNft(parse, s[3..]), Inside(parse(s[2]).value))
    else None
  }

  /** The reader of nftables rules. */
  function Nftables(): Spec -> Option<Clause> { s => ReadNft(Parse, s) }

  lemma NotEqualIsNoNetwork()
    ensures Parse("!=").None?
  {
    assert '/' !in "!=";
  }

  lemma ReadSaddr(parse: NetParser, x: string, rest: Spec)
    requires parse("!=").None? && parse(x).Some?
    ensures ReadNft(parse, ["ip", "saddr", x] + rest) == WithSrc(ReadNft(parse, rest), Inside(parse(x).value))
  {
    assert (["ip", "saddr", x] + rest)[3..] == rest;
  }

  lemma ReadDaddr(parse: NetParser, x: string, rest: Spec)
    requires parse("!=").None? && parse(x).Some?
    ensures ReadNft(parse, ["ip", "daddr", x] + rest) == WithDst(ReadNft(parse, rest), Inside(parse(x).value))
  {
    assert (["ip", "daddr", x] + rest)[3..] == rest;
  }

  lemma ReadNotSaddr(parse: NetParser, x: string, rest: Spec)
    requires parse(x).Some?
    ensures ReadNft(parse, ["ip", "saddr", "!=", x] + rest) == WithSrc(ReadNft(parse, rest), Outside(parse(x).value))
  {
    assert (["ip", "saddr", "!=", x] + rest)[4..] == rest;
  }

  lemma ReadNotDaddr(parse: NetParser, x: string, rest: Spec)
    requires parse(x).Some?
    ensures ReadNft(parse, ["ip", "daddr", "!=", x] + rest) == WithDst(ReadNft(parse, rest), Outside(parse(x).value))
  {
    assert (["ip", "daddr", "!=", x] + rest)[4..] == rest;
  }

  lemma ReadVerdicts(parse: NetParser, randomFully: bool)
    ensures ReadNft(parse, ["return"]) == Plain("RETURN")
    ensures ReadNft(parse, MasqueradeWords(randomFully)) == Plain("MASQUERADE")
    ensures ReadNft(parse, ["meta", "mark", "0x4000", "return"])
            == Some(Clause(Any, Any, Some((0x4000, 0xFFFF_FFFF)), "RETURN"))
  {
    assert ["meta", "mark", "0x4000", "return"][3..] == ["return"];
  }

  function NftClauses(cluster: Net, pod: Net): seq<Clause> {
    [ Clause(Any, Any, Some((0x4000, 0xFFFF_FFFF)), "RETURN"),
      Clause(Inside(pod), Inside(cluster), None, "RETURN"),
      Clause(Inside(cluster), Inside(pod), None, "RETURN"),
      Clause(Outside(pod), Inside(cluster), None, "RETURN"),
      Clause(Inside(cluster), Outside(MULTICAST), None, "MASQUERADE"),
      Clause(Outside(cluster), Inside(cluster), None, "MASQUERADE") ]
  }

  lemma ReadFromTo(parse: NetParser, x: string, y: string, last: Spec)
    requires parse("!=").None? && parse(x).Some? && parse(y).Some?
    ensures ReadNft(parse, ["ip", "saddr", x, "ip", "daddr", y] + last)
            == WithSrc(WithDst(ReadNft(parse, last), Inside(parse(y).value)), Inside(parse(x).value))
    ensures ReadNft(parse, ["ip", "saddr", "!=", x, "ip", "daddr", y] + last)
            == WithSrc(WithDst(ReadNft(parse, last), Inside(parse(y).value)), Outside(parse(x).value))
  {
    assert ["ip", "saddr", x, "ip", "daddr", y] + last == ["ip", "saddr", x] + (["ip", "daddr", y] + last);
    assert ["ip", "saddr", "!=", x, "ip", "daddr", y] + last == ["ip", "saddr", "!=", x] + (["ip", "daddr", y] + last);
    ReadSaddr(parse, x, ["ip", "daddr", y] + last);
    ReadNotSaddr(parse, x, ["ip", "daddr", y] + last);
    ReadDaddr(parse, y, last);
  }

  lemma ReadFromNotTo(parse: NetParser, x: string, y: string, last: Spec)
    requires parse("!=").None? && parse(x).Some? && parse(y).Some?
    ensures ReadNft(parse, ["ip", "saddr", x, "ip", "daddr", "!=", y] + last)
            == WithSrc(WithDst(ReadNft(parse, last), Outside(parse(y).value)), Inside(parse(x).value))
  {
    assert ["ip", "saddr", x, "ip", "daddr", "!=", y] + last == ["ip", "saddr", x] + (["ip", "daddr", "!=", y] + last);
    ReadSaddr(parse, x, ["ip", "daddr", "!=", y] + last);
    ReadNotDaddr(parse, y, last);
  }

  lemma NftReturns(parse: NetParser, cluster: Net, pod: Net, c: string, n: string)
    requires parse("!=").None? && parse(c) == Some(cluster) && parse(n) == Some(pod)
    ensures var cs := NftClauses(cluster, pod);
            && ReadNft(parse, ["ip", "saddr", n, "ip", "daddr", c, "return"]) == Some(cs[1])
            && ReadNft(parse, ["ip", "saddr", c, "ip", "daddr", n, "return"]) == Some(cs[2])
            && ReadNft(parse, ["ip", "saddr", "!=", n, "ip", "daddr", c, "return"]) == Some(cs[3])
  {
    ReadVerdicts(parse, false);
    ReadFromTo(parse, n, c, ["return"]);
    ReadFromTo(parse, c, n, ["return"]);
    assert ["ip", "saddr", n, "ip", "daddr", c, "return"] == ["ip", "saddr", n, "ip", "daddr", c] + ["return"];
    assert ["ip", "saddr", c, "ip", "daddr", n, "return"] == ["ip", "saddr", c, "ip", "daddr", n] + ["return"];
    assert ["ip", "saddr", "!=", n, "ip", "daddr", c, "return"]
           == ["ip", "saddr", "!=", n, "ip", "daddr", c] + ["return"];
  }

  lemma NftMasqueradeOut(parse: NetParser, cluster: Net, c: string, m: string, last: Spec)
    requires parse("!=").None? && parse(c) == Some(cluster) && parse(m) == Some(MULTICAST)
    requires ReadNft(parse, last) == Plain("MASQUERADE")
    ensures ReadNft(parse, ["ip", "saddr", c, "ip", "daddr", "!=", m] + last)
            == Some(Clause(Inside(cluster), Outside(MULTICAST), None, "MASQUERADE"))
  {
    ReadFromNotTo(parse, c, m, last);
  }

  lemma NftMasqueradeIn(parse: NetParser, cluster: Net, c: string, last: Spec)
    requires parse("!=").None? && parse(c) == Some(cluster) && ReadNft(parse, last) == Plain("MASQUERADE")
    ensures ReadNft(parse, ["ip", "saddr", "!=", c, "ip", "daddr", c] + last)
            == Some(Clause(Outside(cluster), Inside(cluster), None, "MASQUERADE"))
  {
    ReadFromTo(parse, c, c, last);
  }

  lemma NftMeaning(cluster: Net, pod: Net, randomFully: bool)
    requires Prefixes(cluster, pod)
    ensures Meaning(Nftables(), NftRules(Print(cluster), Print(pod), randomFully), NftClauses(cluster, pod))
  {
    var s, cs := NftRules(Print(cluster), Print(pod), randomFully), NftClauses(cluster, pod);
    NotEqualIsNoNetwork();
    ParsePrint(cluster);
    ParsePrint(pod);
    ReadVerdicts(Parse, randomFully);
    NftReturns(Parse, cluster, pod, Print(cluster), Print(pod));
    MulticastText();
    NftMasqueradeOut(Parse, cluster, Print(cluster), "224.0.0.0/4", MasqueradeWords(randomFully));
    NftMasqueradeIn(Parse, cluster, Print(cluster), MasqueradeWords(randomFully));
    SixReadings(Nftables(), s, cs);
  }

  ghost predicate Within(pods: Net, cluster: Net)
    requires pods.len <= 32 && cluster.len <= 32
  {
    forall ip: nat :: In(pods, ip) ==> In(cluster, ip)
  }

  lemma NftVerdict(cluster: Net, pods: Net, p: Packet)
    requires Prefixes(cluster, pods)
    requires (In(pods, p.src) ==> In(cluster, p.src)) && (In(pods, p.dst) ==> In(cluster, p.dst))
    ensures Verdict(NftClauses(pods, cluster), p) == "MASQUERADE"
      <==> p.mark != 0x4000 && In(pods, p.src) && !In(cluster, p.dst) && !In(MULTICAST, p.dst)
  {
    var cs := NftClauses(pods, cluster);
    SixVerdicts(cs, p);
    FullMark(p);
    assert |"RETURN"| == 6 && |"MASQUERADE"| == 10;
    assert Matches(cs[1], p) <==> In(cluster, p.src) && In(pods, p.dst);
    assert Matches(cs[2], p) <==> In(pods, p.src) && In(cluster, p.dst);
    assert Matches(cs[3], p) <==> !In(cluster, p.src) && In(pods, p.dst);
  }

  lemma FullMark(p: Packet)
    ensures Matches(Clause(Any, Any, Some((0x4000, 0xFFFF_FFFF)), "RETURN"), p) <==> p.mark == 0x4000
  {
    assert p.mark & 0xFFFF_FFFF == p.mark;
  }

  /** With the node's network inside the cluster's, exactly these packets are masqueraded. */
  lemma NftMasqueraded(cluster: Net, pods: Net, randomFully: bool, p: Packet)
    requires Prefixes(cluster, pods) && Within(pods, cluster)
    ensures Masquerades(Nftables(), NftRules(Print(pods), Print(cluster), randomFully), p)
      <==> p.mark != 0x4000 && In(pods, p.src) && !In(cluster, p.dst) && !In(MULTICAST, p.dst)
  {
    NftMeaning(pods, cluster, randomFully);
    MasqueradesVerdict(Nftables(), NftRules(Print(pods), Print(cluster), randomFully), NftClauses(pods, cluster), p);
    NftVerdict(cluster, pods, p);
  }

  lemma NftWholeVerdict(cluster: Net, pods: Net, p: Packet)
    requires Prefixes(cluster, pods) && Within(pods, cluster)
    ensures Verdict(NftClauses(pods, cluster), p)
      == if p.mark == 0x4000 || In(pods, p.dst) || (In(pods, p.src) && In(cluster, p.dst)) then "RETURN"
         else if In(pods, p.src) && !In(MULTICAST, p.dst) then "MASQUERADE"
         else ""
  {
    SixVerdicts(NftClauses(pods, cluster), p);
    FullMark(p);
  }

  /** The whole verdict of that chain: the packets that it hands back, and those on which it does not decide. */
  lemma NftVerdictOf(cluster: Net, pods: Net, randomFully: bool, p: Packet)
    requires Prefixes(cluster, pods) && Within(pods, cluster)
    ensures VerdictOf(Nftables(), NftRules(Print(pods), Print(cluster), randomFully), p)
      == Some(if p.mark == 0x4000 || In(pods, p.dst) || (In(pods, p.src) && In(cluster, p.dst)) then "RETURN"
              else if In(pods, p.src) && !In(MULTICAST, p.dst) then "MASQUERADE"
              else "")
  {
    NftMeaning(pods, cluster, randomFully);
    VerdictRead(Nftables(), NftRules(Print(pods), Print(cluster), randomFully), NftClauses(pods, cluster), p);
    NftWholeVerdict(cluster, pods, p);
  }

  /**
   * The two back ends. A packet that nftables masquerades and iptables does not has the mark's bit set, but not the
   * mark itself. With any other mark they differ exactly on packets neither from nor to the node's pods that come
   * from the cluster and are not multicast, or enter the cluster. Neither touches packets to the node's pods, or
   * from them to the cluster.
   */
  lemma BackEnds(cluster: Net, pods: Net, nftFully: bool, iptFully: bool, p: Packet)
    requires Prefixes(cluster, pods) && Within(pods, cluster)
    ensures var nft := Masquerades(Nftables(), NftRules(Print(pods), Print(cluster), nftFully), p);
            var ipt := Masquerades(Iptables(), On(MasqRules(Print(cluster), Print(pods), iptFully), NAT), p);
            && (nft && !ipt <==> nft && Marked(p))
            && (p.mark == 0x4000 || !Marked(p) ==>
                (nft != ipt <==> !Marked(p) && !In(pods, p.src) && !In(pods, p.dst)
                                 && (if In(cluster, p.src) then !In(MULTICAST, p.dst) else In(cluster, p.dst))))
            && (In(pods, p.dst) ==> !nft && !ipt)
            && (In(pods, p.src) && In(cluster, p.dst) ==> !nft && !ipt)
  {
    NftMasqueraded(cluster, pods, nftFully, p);
    IptablesMasqueraded(cluster, pods, iptFully, p);
    assert In(pods, p.src) ==> In(cluster, p.src);
    assert In(pods, p.dst) ==> In(cluster, p.dst);
    assert p.mark == 0x4000 ==> Marked(p);
  }
}
