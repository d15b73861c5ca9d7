/** Which packets the two back ends masquerade. */
module Masquerade {
  import opened Common
  import opened IpTables
  import opened Rules
  import opened Cidr
  import Decimal
  import Text

  datatype Packet = Packet(src: nat, dst: nat, mark: bv32)

  datatype Side = Any | Inside(net: Net) | Outside(net: Net)

  /** What a rule asks of a packet, and what it does with one that matches. */
  datatype Clause = Clause(src: Side, dst: Side, mark: Option<(bv32, bv32)>, target: string)

  const MULTICAST := Net(0xE000_0000, 4)

  predicate Holds(side: Side, ip: nat) {
    match side
    case Any => true
    case Inside(n) => n.len <= 32 && In(n, ip)
    case Outside(n) => n.len <= 32 && !In(n, ip)
  }

  predicate Matches(c: Clause, p: Packet) {
    && Holds(c.src, p.src)
    && Holds(c.dst, p.dst)
    && (c.mark.Some? ==> p.mark & c.mark.value.1 == c.mark.value.0)
  }

  /** The target of the first rule that matches. */
  function Verdict(cs: seq<Clause>, p: Packet): string {
    if cs == [] then "" else if Matches(cs[0], p) then cs[0].target else Verdict(cs[1..], p)
  }

  // ---- reading iptables rules ----

  function Plain(target: string): Option<Clause> { Some(Clause(Any, Any, None, target)) }

  function WithSrc(c: Option<Clause>, side: Side): Option<Clause> {
    if c.Some? then Some(c.value.(src := side)) else None
  }

  function WithDst(c: Option<Clause>, side: Side): Option<Clause> {
    if c.Some? then Some(c.value.(dst := side)) else None
  }

  /** Reads the text of a network. */
  type NetParser = string -> Option<Net>

  /** The meaning of a rule specification; None: not understood. */
  function Read(parse: NetParser, s: Spec): Option<Clause> {
    if s == [] then None
    else if s[0] == "-j" then if |s| >= 2 then Plain(s[1]) else None
    else if |s| < 2 then None
    else if s[0] == "-m" || s[0] == "--comment" then Read(parse, s[2..])
    else if s[0] == "--mark" then
      match Read(parse, s[2..])
      case None => None
      case Some(c) => if s[1] == MARK then Some(c.(mark := Some((0x4000, 0x4000)))) else None
    else if s[0] == "-s" then
      if parse(s[1]).Some? then WithSrc(Read(parse, s[2..]), Inside(parse(s[1]).value)) else None
    else if s[0] == "-d" then
      if parse(s[1]).Some? then WithDst(Read(parse, s[2..]), Inside(parse(s[1]).value)) else None
    else if s[0] == "!" && |s| >= 3 && parse(s[2]).Some? then
      if s[1] == "-s" then WithSrc(Read(parse, s[3..]), Outside(parse(s[2]).value))
      else if s[1] == "-d" then WithDst(Read(parse, s[3..]), Outside(parse(s[2]).value))
      else None
    else None
  }

  /** The reader of iptables rules. */
  function Iptables(): Spec -> Option<Clause> { s => Read(Parse, s) }

  predicate Meaning(read: Spec -> Option<Clause>, specs: seq<Spec>, cs: seq<Clause>) {
    |specs| == |cs| && forall i | 0 <= i < |specs| :: read(specs[i]) == Some(cs[i])
  }

  /** The rules of a chain, read with `read`, masquerade the packet: the first one that matches says so. */
  predicate Masquerades(read: Spec -> Option<Clause>, specs: seq<Spec>, p: Packet) {
    specs != [] &&
    match read(specs[0])
    case None => false
    case Some(c) => if Matches(c, p) then c.target == "MASQUERADE" else Masquerades(read, specs[1..], p)
  }

  lemma {:induction false} MasqueradesVerdict(read: Spec -> Option<Clause>, specs: seq<Spec>,
                                              cs: seq<Clause>, p: Packet)
    requires Meaning(read, specs, cs)
    ensures Masquerades(read, specs, p) <==> Verdict(cs, p) == "MASQUERADE"
  {
    if specs != [] && !Matches(cs[0], p) {
      MasqueradesVerdict(read, specs[1..], cs[1..], p);
    }
  }

  /** The target of the first rule of a chain that matches, "" if none does; None: a rule is not understood. */
  function VerdictOf(read: Spec -> Option<Clause>, specs: seq<Spec>, p: Packet): Option<string> {
    if specs == [] then Some("")
    else match read(specs[0])
      case None => None
      case Some(c) => if Matches(c, p) then Some(c.target) else VerdictOf(read, specs[1..], p)
  }

  lemma {:induction false} VerdictRead(read: Spec -> Option<Clause>, specs: seq<Spec>, cs: seq<Clause>, p: Packet)
    requires Meaning(read, specs, cs)
    ensures VerdictOf(read, specs, p) == Some(Verdict(cs, p))
  {
    if specs != [] && !Matches(cs[0], p) {
      VerdictRead(read, specs[1..], cs[1..], p);
    }
  }

  lemma ReadSrc(parse: NetParser, x: string, rest: Spec)
    requires parse(x).Some?
    ensures Read(parse, ["-s", x] + rest) == WithSrc(Read(parse, rest), Inside(parse(x).value))
  {
    assert (["-s", x] + rest)[2..] == rest;
  }

  lemma ReadDst(parse: NetParser, x: string, rest: Spec)
    requires parse(x).Some?
    ensures Read(parse, ["-d", x] + rest) == WithDst(Read(parse, rest), Inside(parse(x).value))
  {
    assert (["-d", x] + rest)[2..] == rest;
  }

  lemma ReadNotSrc(parse: NetParser, x: string, rest: Spec)
    requires parse(x).Some?
    ensures Read(parse, ["!", "-s", x] + rest) == WithSrc(Read(parse, rest), Outside(parse(x).value))
  {
    assert (["!", "-s", x] + rest)[3..] == rest;
  }

  lemma ReadNotDst(parse: NetParser, x: string, rest: Spec)
    requires parse(x).Some?
    ensures Read(parse, ["!", "-d", x] + rest) == WithDst(Read(parse, rest), Outside(parse(x).value))
  {
    assert (["!", "-d", x] + rest)[3..] == rest;
  }

  lemma ReadComment(parse: NetParser, text: string, rest: Spec)
    ensures Read(parse, Comment(text) + rest) == Read(parse, rest)
  {
    assert (Comment(text) + rest)[2..] == ["--comment", text] + rest;
    assert (["--comment", text] + rest)[2..] == rest;
  }

  lemma ReadMark(parse: NetParser, rest: Spec)
    ensures Read(parse, ["-m", "mark", "--mark", MARK] + rest)
            == if Read(parse, rest).None? then None else Some(Read(parse, rest).value.(mark := Some((0x4000, 0x4000))))
  {
    assert (["-m", "mark", "--mark", MARK] + rest)[2..] == ["--mark", MARK] + rest;
    assert (["--mark", MARK] + rest)[2..] == rest;
  }

  lemma ReadTargets(parse: NetParser, randomFully: bool)
    ensures Read(parse, ["-j", "RETURN"]) == Plain("RETURN")
    ensures Read(parse, MasqueradeTarget(randomFully)) == Plain("MASQUERADE")
  {
  }

  // ---- the iptables chain ----

  /** The clauses of the managed chain, for the networks of the cluster and of the node's pods. */
  function IptablesClauses(cluster: Net, pods: Net): seq<Clause> {
    [ Clause(Any, Any, Some((0x4000, 0x4000)), "RETURN"),
      Clause(Inside(pods), Inside(cluster), None, "RETURN"),
      Clause(Inside(cluster), Inside(pods), None, "RETURN"),
      Clause(Outside(cluster), Inside(pods), None, "RETURN"),
      Clause(Inside(cluster), Outside(MULTICAST), None, "MASQUERADE"),
      Clause(Outside(cluster), Inside(cluster), None, "MASQUERADE") ]
  }

  function MasqSpecs(cluster: string, pod: string, randomFully: bool): seq<Spec> {
    var r := MasqRules(cluster, pod, randomFully);
    [r[1].spec, r[2].spec, r[3].spec, r[4].spec, r[5].spec, r[6].spec]
  }

  lemma {:induction false} OnTail(rules: seq<Rule>, key: Key)
    requires rules != [] && (rules[0].table, rules[0].chain) != key
    requires forall i | 1 <= i < |rules| :: (rules[i].table, rules[i].chain) == key
    ensures |On(rules, key)| == |rules| - 1
    ensures forall i | 0 <= i < |rules| - 1 :: On(rules, key)[i] == rules[i + 1].spec
  {
    if |rules| == 1 {
      assert rules[..0] == [];
    } else {
      OnTail(rules[..|rules| - 1], key);
    }
  }

  lemma OnMasqRules(cluster: string, pod: string, randomFully: bool)
    ensures On(MasqRules(cluster, pod, randomFully), NAT) == MasqSpecs(cluster, pod, randomFully)
  {
    var rules := MasqRules(cluster, pod, randomFully);
    MasqShaped(cluster, pod, randomFully);
    OnTail(rules, NAT);
    SixSpecs(rules, On(rules, NAT));
  }

  lemma SixSpecs(rules: seq<Rule>, specs: seq<Spec>)
    requires |rules| == 7 && |specs| == 6 && forall i | 0 <= i < 6 :: specs[i] == rules[i + 1].spec
    ensures specs == [rules[1].spec, rules[2].spec, rules[3].spec, rules[4].spec, rules[5].spec, rules[6].spec]
  {
  }

  lemma MulticastDigits()
    ensures Fields([224, 0, 0, 0]) == ["224", "0", "0", "0"] && Decimal.Print(4) == "4"
  {
    assert Decimal.Print(22) == "22" && Decimal.Print(224) == "224";
  }

  lemma MulticastJoined()
    ensures Text.Join(["224", "0", "0", "0"], '.') == "224.0.0.0"
  {
    assert Text.Join(["0"], '.') == "0";
    assert ["0", "0"][1..] == ["0"];
    assert Text.Join(["0", "0"], '.') == "0.0";
    assert ["0", "0", "0"][1..] == ["0", "0"];
    assert Text.Join(["0", "0", "0"], '.') == "0.0.0";
    assert ["224", "0", "0", "0"][1..] == ["0", "0", "0"];
  }

  lemma MulticastBlock()
    ensures Block(4) == 0x1000_0000
  {
    assert Pow2(4) == 16;
    assert Pow2(8) == 256;
    assert Pow2(12) == 4096;
    assert Pow2(16) == 65536;
    assert Pow2(20) == 0x10_0000;
    assert Pow2(24) == 0x100_0000;
  }

  lemma MulticastPrinted()
    ensures Print(MULTICAST) == "224.0.0.0/4"
  {
    MulticastDigits();
    MulticastJoined();
    assert Octets(MULTICAST.base) == [224, 0, 0, 0];
    assert PrintAddress(MULTICAST.base) == "224.0.0.0";
    assert "224.0.0.0" + "/" + "4" == "224.0.0.0/4";
  }

  lemma MulticastMasked()
    ensures Masked(MULTICAST) == MULTICAST
  {
    MulticastBlock();
    MaskedSame(MULTICAST);
  }

  lemma MulticastText()
    ensures Parse("224.0.0.0/4") == Some(MULTICAST)
  {
    MulticastPrinted();
    MulticastMasked();
    ParsePrint(MULTICAST);
  }

  ghost predicate Prefixes(cluster: Net, pods: Net) {
    Wf(cluster) && Wf(pods) && Masked(cluster) == cluster && Masked(pods) == pods
  }

  lemma ReadRule1(parse: NetParser, target: Spec)
    ensures var r := Read(parse, target);
            Read(parse, ["-m", "mark", "--mark", MARK] + Comment("simplecni masq mask") + target)
            == if r.None? then None else Some(r.value.(mark := Some((0x4000, 0x4000))))
  {
    var rest := Comment("simplecni masq mask") + target;
    assert ["-m", "mark", "--mark", MARK] + Comment("simplecni masq mask") + target
           == ["-m", "mark", "--mark", MARK] + rest;
    ReadMark(parse, rest);
    ReadComment(parse, "simplecni masq mask", target);
  }

  lemma ReadRule2(parse: NetParser, x: string, y: string, text: string, target: Spec)
    requires parse(x).Some? && parse(y).Some?
    ensures Read(parse, ["-s", x, "-d", y] + Comment(text) + target)
            == WithSrc(WithDst(Read(parse, target), Inside(parse(y).value)), Inside(parse(x).value))
  {
    var rest := Comment(text) + target;
    assert ["-s", x, "-d", y] + Comment(text) + target == ["-s", x] + (["-d", y] + rest);
    ReadSrc(parse, x, ["-d", y] + rest);
    ReadDst(parse, y, rest);
    ReadComment(parse, text, target);
  }

  lemma ReadRule4(parse: NetParser, x: string, y: string, target: Spec)
    requires parse(x).Some? && parse(y).Some?
    ensures Read(parse, ["!", "-s", x, "-d", y] + Comment("simplecni masq") + target)
            == WithSrc(WithDst(Read(parse, target), Inside(parse(y).value)), Outside(parse(x).value))
  {
    var rest := Comment("simplecni masq") + target;
    assert ["!", "-s", x, "-d", y] + Comment("simplecni masq") + target == ["!", "-s", x] + (["-d", y] + rest);
    ReadNotSrc(parse, x, ["-d", y] + rest);
    ReadDst(parse, y, rest);
    ReadComment(parse, "simplecni masq", target);
  }

  lemma ReadRule5(parse: NetParser, x: string, y: string, target: Spec)
    requires parse(x).Some? && parse(y).Some?
    ensures Read(parse, ["-s", x, "!", "-d", y] + Comment("simplecni masq") + target)
            == WithSrc(WithDst(Read(parse, target), Outside(parse(y).value)), Inside(parse(x).value))
  {
    var rest := Comment("simplecni masq") + target;
    assert ["-s", x, "!", "-d", y] + Comment("simplecni masq") + target == ["-s", x] + (["!", "-d", y] + rest);
    ReadSrc(parse, x, ["!", "-d", y] + rest);
    ReadNotDst(parse, y, rest);
    ReadComment(parse, "simplecni masq", target);
  }

  lemma SixReadings(read: Spec -> Option<Clause>, s: seq<Spec>, cs: seq<Clause>)
    requires |s| == 6 && |cs| == 6
    requires read(s[0]) == Some(cs[0]) && read(s[1]) == Some(cs[1]) && read(s[2]) == Some(cs[2])
    requires read(s[3]) == Some(cs[3]) && read(s[4]) == Some(cs[4]) && read(s[5]) == Some(cs[5])
    ensures Meaning(read, s, cs)
  {
  }

  /** The rules of the managed chain mean the clauses. */
  lemma IptablesMeaning(cluster: Net, pods: Net, randomFully: bool)
    requires Prefixes(cluster, pods)
    ensures Meaning(Iptables(), MasqSpecs(Print(cluster), Print(pods), randomFully), IptablesClauses(cluster, pods))
  {
    var c, n, cs := Print(cluster), Print(pods), IptablesClauses(cluster, pods);
    var s := MasqSpecs(c, n, randomFully);
    ParsePrint(cluster);
    ParsePrint(pods);
    MulticastText();
    ReadTargets(Parse, randomFully);
    assert Read(Parse, s[0]) == Some(cs[0]) by { ReadRule1(Parse, ["-j", "RETURN"]); }
    assert Read(Parse, s[1]) == Some(cs[1]) by {
      ReadRule2(Parse, n, c, "simplecni masq pod to cluster", ["-j", "RETURN"]);
    }
    assert Read(Parse, s[2]) == Some(cs[2]) by {
      ReadRule2(Parse, c, n, "simplecni masq cluster to pod", ["-j", "RETURN"]);
    }
    assert Read(Parse, s[3]) == Some(cs[3]) by { ReadRule4(Parse, c, n, ["-j", "RETURN"]); }
    assert Read(Parse, s[4]) == Some(cs[4]) by { ReadRule5(Parse, c, "224.0.0.0/4", MasqueradeTarget(randomFully)); }
    assert Read(Parse, s[5]) == Some(cs[5]) by { ReadRule4(Parse, c, c, MasqueradeTarget(randomFully)); }
    SixReadings(Iptables(), s, cs);
  }

  predicate Marked(p: Packet) { p.mark & 0x4000 == 0x4000 }

  /** The verdict of six clauses, one after the other. */
  lemma SixVerdicts(cs: seq<Clause>, p: Packet)
    requires |cs| == 6
    ensures Verdict(cs, p)
      == if Matches(cs[0], p) then cs[0].target
         else if Matches(cs[1], p) then cs[1].target
         else if Matches(cs[2], p) then cs[2].target
         else if Matches(cs[3], p) then cs[3].target
         else if Matches(cs[4], p) then cs[4].target
         else if Matches(cs[5], p) then cs[5].target
         else ""
  {
    assert cs[1..][1..] == cs[2..] && cs[2..][1..] == cs[3..] && cs[3..][1..] == cs[4..] && cs[4..][1..] == cs[5..];
    assert Verdict(cs[5..], p) == if Matches(cs[5], p) then cs[5].target else "";
    assert Verdict(cs[4..], p) == if Matches(cs[4], p) then cs[4].target else Verdict(cs[5..], p);
    assert Verdict(cs[3..], p) == if Matches(cs[3], p) then cs[3].target else Verdict(cs[4..], p);
    assert Verdict(cs[2..], p) == if Matches(cs[2], p) then cs[2].target else Verdict(cs[3..], p);
    assert Verdict(cs[1..], p) == if Matches(cs[1], p) then cs[1].target else Verdict(cs[2..], p);
  }

  lemma IptablesVerdict(cluster: Net, pods: Net, p: Packet)
    requires Prefixes(cluster, pods)
    ensures Verdict(IptablesClauses(cluster, pods), p) == "MASQUERADE"
      <==> !Marked(p) && !In(pods, p.dst) && !(In(pods, p.src) && In(cluster, p.dst))
           && (if In(cluster, p.src) then !In(MULTICAST, p.dst) else In(cluster, p.dst))
  {
    SixVerdicts(IptablesClauses(cluster, pods), p);
    assert |"RETURN"| == 6 && |"MASQUERADE"| == 10;
  }

  /** After a bootstrap of an emptied chain: exactly these packets are masqueraded. */
  lemma IptablesMasqueraded(cluster: Net, pods: Net, randomFully: bool, p: Packet)
    requires Prefixes(cluster, pods)
    ensures Masquerades(Iptables(), On(MasqRules(Print(cluster), Print(pods), randomFully), NAT), p)
      <==> !Marked(p) && !In(pods, p.dst) && !(In(pods, p.src) && In(cluster, p.dst))
           && (if In(cluster, p.src) then !In(MULTICAST, p.dst) else In(cluster, p.dst))
  {
    OnMasqRules(Print(cluster), Print(pods), randomFully);
    IptablesMeaning(cluster, pods, randomFully);
    MasqueradesVerdict(Iptables(), MasqSpecs(Print(cluster), Print(pods), randomFully),
                       IptablesClauses(cluster, pods), p);
    IptablesVerdict(cluster, pods, p);
  }

  lemma WholeVerdict(cluster: Net, pods: Net, p: Packet)
    requires Prefixes(cluster, pods)
    ensures Verdict(IptablesClauses(cluster, pods), p)
      == if Marked(p) || In(pods, p.dst) || (In(pods, p.src) && In(cluster, p.dst)) then "RETURN"
         else if (if In(cluster, p.src) then !In(MULTICAST, p.dst) else In(cluster, p.dst)) then "MASQUERADE"
         else ""
  {
    SixVerdicts(IptablesClauses(cluster, pods), p);
  }

  /** The whole verdict of that chain: the packets that it hands back, and those on which it does not decide. */
  lemma IptablesVerdictOf(cluster: Net, pods: Net, randomFully: bool, p: Packet)
    requires Prefixes(cluster, pods)
    ensures VerdictOf(Iptables(), On(MasqRules(Print(cluster), Print(pods), randomFully), NAT), p)
      == Some(if Marked(p) || In(pods, p.dst) || (In(pods, p.src) && In(cluster, p.dst)) then "RETURN"
              else if (if In(cluster, p.src) then !In(MULTICAST, p.dst) else In(cluster, p.dst)) then "MASQUERADE"
              else "")
  {
    OnMasqRules(Print(cluster), Print(pods), randomFully);
    IptablesMeaning(cluster, pods, randomFully);
    VerdictRead(Iptables(), MasqSpecs(Print(cluster), Print(pods), randomFully), IptablesClauses(cluster, pods), p);
    WholeVerdict(cluster, pods, p);
  }

  // ---- the forward chain ----

  function ForwardClauses(pods: Net): seq<Clause> {
    [Clause(Inside(pods), Any, None, "ACCEPT"), Clause(Any, Inside(pods), None, "ACCEPT")]
  }

  lemma ForwardMeaning(pods: Net)
    requires Wf(pods) && Masked(pods) == pods
    ensures Meaning(Iptables(), On(ForwardRules(Print(pods)), ("filter", FWD)), ForwardClauses(pods))
  {
    var n, rules, key := Print(pods), ForwardRules(Print(pods)), ("filter", FWD);
    ParsePrint(pods);
    assert |"FORWARD"| == 7 && |FWD| == 13;
    OnTail(rules, key);
    var accept := ["-j", "ACCEPT"];
    ReadComment(Parse, "simplecni forward", accept);
    ReadSrc(Parse, n, Comment("simplecni forward") + accept);
    ReadDst(Parse, n, Comment("simplecni forward") + accept);
    assert rules[1].spec == ["-s", n] + (Comment("simplecni forward") + accept);
    assert rules[2].spec == ["-d", n] + (Comment("simplecni forward") + accept);
  }

  /** The managed forward chain accepts exactly the packets from and to the network, and leaves the others. */
  lemma ForwardVerdict(pods: Net, p: Packet)
    requires Wf(pods) && Masked(pods) == pods
    ensures VerdictOf(Iptables(), On(ForwardRules(Print(pods)), ("filter", FWD)), p)
            == Some(if In(pods, p.src) || In(pods, p.dst) then "ACCEPT" else "")
  {
    var cs := ForwardClauses(pods);
    ForwardMeaning(pods);
    VerdictRead(Iptables(), On(ForwardRules(Print(pods)), ("filter", FWD)), cs, p);
    assert Verdict(cs[1..], p) == if Matches(cs[1], p) then cs[1].target else Verdict(cs[1..][1..], p);
  }
}
