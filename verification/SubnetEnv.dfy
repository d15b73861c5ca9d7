/** The file subnet.env: written by the daemon, read by the CNI plugin. */
module SubnetEnv {
  import opened Common
  import opened Text
  import Cidr
  import Decimal

  /** An IPv4 network, or an IPv6 network as the parser parameter numbers it. */
  datatype Network = V4(net: Cidr.Net) | V6(id: nat)

  /** Reads the text of an IPv6 network. */
  type Parser6 = string -> Option<nat>

  function ParseCIDR(s: string, six: Parser6): Option<Network> {
    match Cidr.Parse(s)
    case Some(n) => Some(V4(n))
    case None => match six(s) case None => None case Some(id) => Some(V6(id))
  }

  datatype Env = Env(
    nws: seq<Network>,
    sn: Option<Network>,
    ip6Nws: seq<Network>,
    ip6Sn: Option<Network>,
    mtu: Option<nat>,
    ipmasq: Option<bool>,
    backend: string
  )

  const EMPTY := Env([], None, [], None, None, None, "")

  /** Index: a known key stands without a value, and the reader stops with an index out of range. */
  datatype Loaded = Ok(env: Env) | Error | Index

  // ---- the writer ----

  function Upper(c: char): char { if 'a' <= c <= 'z' then c - 32 as char else c }

  function ToUpper(s: string): string { seq(|s|, i requires 0 <= i < |s| => Upper(s[i])) }

  function Entry(key: string, value: string): string { ToUpper(key) + "=" + value }

  function Entries(order: seq<string>, m: map<string, string>): seq<string>
    requires forall k | k in order :: k in m
  {
    seq(|order|, i requires 0 <= i < |order| => Entry(order[i], m[order[i]]))
  }

  method WriteSubnetFile(order: seq<string>, m: map<string, string>) returns (text: string)
    requires forall k | k in order :: k in m
    ensures text == Concat(Ended(Entries(order, m), '\n'))
  {
    text := "";
    ghost var all := Ended(Entries(order, m), '\n');
    for i := 0 to |order|
      invariant text == Concat(all[..i])
    {
      assert all[..i + 1][..i] == all[..i];
      assert all[i] == Entry(order[i], m[order[i]]) + "\n";
      text := text + (ToUpper(order[i]) + "=" + m[order[i]] + "\n");
    }
    assert all[..|order|] == all;
  }

  // ---- the reader ----

  /** A line without a carriage return at its end. */
  function Chomp(s: string): string { if s != "" && s[|s| - 1] == '\r' then s[..|s| - 1] else s }

  function Chomped(texts: seq<string>): seq<string> { seq(|texts|, i requires 0 <= i < |texts| => Chomp(texts[i])) }

  /** The lines that the scanner gives. */
  function ScanLines(s: string): seq<string> {
    var parts := Split(s, '\n');
    Chomped(if parts[|parts| - 1] == "" then parts[..|parts| - 1] else parts)
  }

  function ReadNetworks(cidrs: seq<string>, six: Parser6): Option<seq<Network>> {
    if cidrs == [] then Some([])
    else match (ReadNetworks(cidrs[..|cidrs| - 1], six), ParseCIDR(cidrs[|cidrs| - 1], six))
      case (Some(nws), Some(nw)) => Some(if nw in nws then nws else nws + [nw])
      case _ => None
  }

  datatype Kind = Networks | Subnet | Networks6 | Subnet6 | Mtu | IpMasq | Backend

  function Name(k: Kind): string {
    match k
    case Networks => "NETWORK"
    case Subnet => "SUBNET"
    case Networks6 => "IPV6_NETWORK"
    case Subnet6 => "IPV6_SUBNET"
    case Mtu => "MTU"
    case IpMasq => "IPMASQ"
    case Backend => "BACKEND"
  }

  /** The key that the switch recognises. */
  function KindOf(key: string): Option<Kind> {
    if key == "NETWORK" then Some(Networks)
    else if key == "SUBNET" then Some(Subnet)
    else if key == "IPV6_NETWORK" then Some(Networks6)
    else if key == "IPV6_SUBNET" then Some(Subnet6)
    else if key == "MTU" then Some(Mtu)
    else if key == "IPMASQ" then Some(IpMasq)
    else if key == "BACKEND" then Some(Backend)
    else None
  }

  /** What one key and value change. */
  function SetKey(se: Env, k: Kind, value: string, six: Parser6): Loaded {
    match k
    case Networks =>
      (match ReadNetworks(Split(value, ','), six) case None => Error case Some(nws) => Ok(se.(nws := nws)))
    case Subnet => (match ParseCIDR(value, six) case None => Error case Some(nw) => Ok(se.(sn := Some(nw))))
    case Networks6 =>
      (match ReadNetworks(Split(value, ','), six) case None => Error case Some(nws) => Ok(se.(ip6Nws := nws)))
    case Subnet6 => (match ParseCIDR(value, six) case None => Error case Some(nw) => Ok(se.(ip6Sn := Some(nw))))
    case Mtu => (match Decimal.ParseUint(value, TWO32) case None => Error case Some(mtu) => Ok(se.(mtu := Some(mtu))))
    case IpMasq => Ok(se.(ipmasq := Some(value == "true")))
    case Backend => Ok(se.(backend := value))
  }

  /** A line is split at its first =; a known key without one is an index out of range. */
  function LoadLine(se: Env, line: string, six: Parser6): Loaded {
    match Cut(line, '=')
    case Some((key, value)) => if KindOf(key).Some? then SetKey(se, KindOf(key).value, value, six) else Ok(se)
    case None => if KindOf(line).Some? then Index else Ok(se)
  }

  function LoadLines(lines: seq<string>, six: Parser6): Loaded {
    if lines == [] then Ok(EMPTY)
    else match LoadLines(lines[..|lines| - 1], six)
      case Ok(se) => LoadLine(se, lines[|lines| - 1], six)
      case e => e
  }

  predicate Complete(se: Env) { (se.sn.Some? || se.ip6Sn.Some?) && se.ipmasq.Some? }

  function LoadOf(text: string, six: Parser6): Loaded {
    match LoadLines(ScanLines(text), six)
    case Ok(se) => if Complete(se) then Ok(se) else Error
    case e => e
  }

  method IsSubnetAlreadyPresent(nws: seq<Network>, nw: Network) returns (present: bool)
    ensures present == (nw in nws)
  {
    for i := 0 to |nws|
      invariant nw !in nws[..i]
    {
      if nws[i] == nw {
        return true;
      }
    }
    assert nws[..|nws|] == nws;
    return false;
  }

  method LoadNetworks(value: string, six: Parser6) returns (nws: Option<seq<Network>>)
    ensures nws == ReadNetworks(Split(value, ','), six)
  {
    var cidrs := Split(value, ',');
    var list: seq<Network> := [];
    for i := 0 to |cidrs|
      invariant ReadNetworks(cidrs[..i], six) == Some(list)
    {
      assert cidrs[..i + 1][..i] == cidrs[..i];
      var nw := ParseCIDR(cidrs[i], six);
      if nw.None? {
        NoNetworks(cidrs, i + 1, six);
        return None;
      }
      var present := IsSubnetAlreadyPresent(list, nw.value);
      if !present {
        list := list + [nw.value];
      }
    }
    assert cidrs[..|cidrs|] == cidrs;
    return Some(list);
  }

  lemma {:induction false} NoNetworks(cidrs: seq<string>, n: nat, six: Parser6)
    requires n <= |cidrs| && ReadNetworks(cidrs[..n], six).None?
    ensures ReadNetworks(cidrs, six).None?
    decreases |cidrs| - n
  {
    if n == |cidrs| {
      assert cidrs[..n] == cidrs;
    } else {
      assert cidrs[..n + 1][..n] == cidrs[..n];
      NoNetworks(cidrs, n + 1, six);
    }
  }

  lemma {:induction false} Stopped(lines: seq<string>, n: nat, six: Parser6)
    requires n <= |lines| && !LoadLines(lines[..n], six).Ok?
    ensures LoadLines(lines, six) == LoadLines(lines[..n], six)
    decreases |lines| - n
  {
    if n == |lines| {
      assert lines[..n] == lines;
    } else {
      assert lines[..n + 1][..n] == lines[..n];
      Stopped(lines, n + 1, six);
    }
  }

  /** Texts of what is missing, as the error message lists them. */
  method Missing(se: Env) returns (m: seq<string>)
    ensures m == [] <==> Complete(se)
  {
    m := [];
    if se.sn == None && se.ip6Sn == None {
      m := m + ["SUBNET", "IPV6_SUBNET"];
    }
    if se.ipmasq == None {
      m := m + ["IPMASQ"];
    }
  }

  method LoadSubnetEnv(text: string, six: Parser6) returns (r: Loaded)
    ensures r == LoadOf(text, six)
  {
    var se := EMPTY;
    var lines := ScanLines(text);
    for i := 0 to |lines|
      invariant LoadLines(lines[..i], six) == Ok(se)
    {
      assert lines[..i + 1][..i] == lines[..i];
      var parts := Cut(lines[i], '=');
      var key := if parts.None? then lines[i] else parts.value.0;
      var kind := KindOf(key);
      if kind.Some? {
        if parts.None? {
          Stopped(lines, i + 1, six);
          return Index;
        }
        if kind.value == Networks || kind.value == Networks6 {
          var nws := LoadNetworks(parts.value.1, six);
          if nws.None? {
            Stopped(lines, i + 1, six);
            return Error;
          }
          se := if kind.value == Networks then se.(nws := nws.value) else se.(ip6Nws := nws.value);
        } else {
          var next := SetKey(se, kind.value, parts.value.1, six);
          if !next.Ok? {
            Stopped(lines, i + 1, six);
            return next;
          }
          se := next.env;
        }
      }
    }
    assert lines[..|lines|] == lines;
    var m := Missing(se);
    if m != [] {
      return Error;
    }
    return Ok(se);
  }

  // ---- round trip ----

  /** The keys and values that the reader sees. */
  function Pairs(lines: seq<string>): seq<Option<(string, string)>> {
    seq(|lines|, i requires 0 <= i < |lines| => Cut(lines[i], '='))
  }

  lemma EntryBack(key: string, value: string)
    requires '=' !in key && '\n' !in key && '\n' !in value
    ensures '\n' !in Entry(key, value)
    ensures Cut(Chomp(Entry(key, value)), '=') == Some((ToUpper(key), Chomp(value)))
  {
    assert '=' !in ToUpper(key) && '\n' !in ToUpper(key);
    assert Chomp(Entry(key, value)) == ToUpper(key) + ['='] + Chomp(value);
    CutAt(ToUpper(key), '=', Chomp(value));
  }

  function Seen(order: seq<string>, m: map<string, string>): seq<Option<(string, string)>>
    requires forall k | k in order :: k in m
  {
    seq(|order|, i requires 0 <= i < |order| => Some((ToUpper(order[i]), Chomp(m[order[i]]))))
  }

  lemma EntriesBack(order: seq<string>, m: map<string, string>)
    requires forall k | k in order :: k in m && '=' !in k && '\n' !in k && '\n' !in m[k]
    ensures forall i | 0 <= i < |order| :: '\n' !in Entries(order, m)[i]
    ensures Pairs(Chomped(Entries(order, m))) == Seen(order, m)
  {
    forall i | 0 <= i < |order|
      ensures '\n' !in Entries(order, m)[i]
      ensures Cut(Chomp(Entries(order, m)[i]), '=') == Some((ToUpper(order[i]), Chomp(m[order[i]])))
    {
      EntryBack(order[i], m[order[i]]);
    }
  }

  lemma LinesBack(texts: seq<string>)
    requires forall i | 0 <= i < |texts| :: '\n' !in texts[i]
    ensures ScanLines(Concat(Ended(texts, '\n'))) == Chomped(texts)
  {
    SplitEnded(texts, '\n');
    assert (texts + [""])[..|texts|] == texts;
  }

  /** In any order of the keys, the reader sees each in upper case, and its value without a final carriage return. */
  lemma FileBack(order: seq<string>, m: map<string, string>)
    requires forall k | k in order :: k in m && '=' !in k && '\n' !in k && '\n' !in m[k]
    ensures ScanLines(Concat(Ended(Entries(order, m), '\n'))) == Chomped(Entries(order, m))
    ensures Pairs(ScanLines(Concat(Ended(Entries(order, m), '\n')))) == Seen(order, m)
  {
    EntriesBack(order, m);
    LinesBack(Entries(order, m));
  }

  /** The map itself comes back exactly if its keys are upper case and no value ends in a carriage return. */
  lemma MapBack(order: seq<string>, m: map<string, string>)
    requires forall k | k in order :: k in m && '=' !in k && '\n' !in k && '\n' !in m[k]
    ensures Pairs(ScanLines(Concat(Ended(Entries(order, m), '\n'))))
              == seq(|order|, i requires 0 <= i < |order| => Some((order[i], m[order[i]])))
            <==> forall k | k in order :: ToUpper(k) == k && Chomp(m[k]) == m[k]
  {
    FileBack(order, m);
    var seen := Seen(order, m);
    var want := seq(|order|, i requires 0 <= i < |order| => Some((order[i], m[order[i]])));
    if seen == want {
      forall k | k in order ensures ToUpper(k) == k && Chomp(m[k]) == m[k] {
        var i :| 0 <= i < |order| && order[i] == k;
        assert seen[i] == want[i];
      }
    }
  }

  // ---- what the vxlan back end writes ----

  datatype Lease = Lease(cidrIPv4: seq<Cidr.Net>, cidrIPv6: seq<string>)

  function GetSubnetMap(lease: Lease): map<string, string>
    requires forall n | n in lease.cidrIPv4 :: Cidr.Wf(n)
  {
    var m := map["MTU" := "1450"];
    var m1 := if |lease.cidrIPv4| > 0 then m["SUBNET" := Cidr.Print(lease.cidrIPv4[0])] else m;
    var m2 := if |lease.cidrIPv6| > 0 then m1["IPV6_SUBNET" := lease.cidrIPv6[0]] else m1;
    m2["IPMASQ" := "true"]
  }

  /** The value written for a key. */
  function Written(lease: Lease, k: Kind): Option<string>
    requires forall n | n in lease.cidrIPv4 :: Cidr.Wf(n)
  {
    match k
    case Mtu => Some("1450")
    case IpMasq => Some("true")
    case Subnet => if |lease.cidrIPv4| > 0 then Some(Cidr.Print(lease.cidrIPv4[0])) else None
    case Subnet6 => if |lease.cidrIPv6| > 0 then Some(lease.cidrIPv6[0]) else None
    case _ => None
  }

  lemma NamesDiffer(a: Kind, b: Kind)
    ensures Name(a) == Name(b) <==> a == b
    ensures KindOf(Name(a)) == Some(a)
  {
  }

  lemma KindNamed(key: string)
    ensures KindOf(key).Some? ==> Name(KindOf(key).value) == key
  {
  }

  lemma MapWritten(lease: Lease, k: Kind)
    requires forall n | n in lease.cidrIPv4 :: Cidr.Wf(n)
    ensures Name(k) in GetSubnetMap(lease) <==> Written(lease, k).Some?
    ensures Written(lease, k).Some? ==> GetSubnetMap(lease)[Name(k)] == Written(lease, k).value
  {
    NamesDiffer(k, Mtu);
    NamesDiffer(k, Subnet);
    NamesDiffer(k, Subnet6);
    NamesDiffer(k, IpMasq);
  }

  lemma MapKinds(lease: Lease, key: string)
    requires forall n | n in lease.cidrIPv4 :: Cidr.Wf(n)
    requires key in GetSubnetMap(lease)
    ensures KindOf(key).Some?
  {
  }

  /** Capital letters, digits and underscores. */
  predicate Plain(s: string) { forall c | c in s :: 'A' <= c <= 'Z' || '0' <= c <= '9' || c == '_' }

  lemma PlainIsUpper(s: string)
    requires Plain(s)
    ensures ToUpper(s) == s && '=' !in s && '\n' !in s
  {
    forall i | 0 <= i < |s| ensures Upper(s[i]) == s[i] {
      assert s[i] in s;
    }
  }

  lemma UpperName(k: Kind)
    ensures ToUpper(Name(k)) == Name(k) && '=' !in Name(k) && '\n' !in Name(k)
  {
    assert Plain(Name(k));
    PlainIsUpper(Name(k));
  }

  lemma MtuValue()
    ensures Decimal.ParseUint("1450", TWO32) == Some(1450)
  {
    var s := "1450";
    assert s[..3] == "145" && s[..3][..2] == "14" && s[..3][..2][..1] == "1" && s[..3][..2][..1][..0] == "";
    assert Decimal.Value("1") == 1;
    assert Decimal.Value("14") == 14;
    assert Decimal.Value("145") == 145;
  }

  /** The text of the lease's IPv6 network, read as a network. */
  predicate Readable(text: string, six: Parser6, n: Network) {
    '\n' !in text && Chomp(text) == text && ParseCIDR(text, six) == Some(n)
  }

  ghost predicate Sound(lease: Lease, six: Parser6, n6: Network) {
    && (forall n | n in lease.cidrIPv4 :: Cidr.Wf(n))
    && (|lease.cidrIPv6| > 0 ==> Readable(lease.cidrIPv6[0], six, n6))
  }

  /** The IPv4 network as the reader gets it. */
  function Network4(lease: Lease): Option<Network>
    requires forall n | n in lease.cidrIPv4 :: Cidr.Wf(n)
  {
    if lease.cidrIPv4 == [] then None
    else
      assert lease.cidrIPv4[0] in lease.cidrIPv4 && Cidr.Wf(lease.cidrIPv4[0]);
      Some(V4(Cidr.Masked(lease.cidrIPv4[0])))
  }

  /** What the reader has after these keys. */
  function After(lease: Lease, n6: Network, done: set<Kind>): Env
    requires forall n | n in lease.cidrIPv4 :: Cidr.Wf(n)
  {
    EMPTY.(mtu := if Mtu in done then Some(1450) else None,
           ipmasq := if IpMasq in done then Some(true) else None,
           sn := if Subnet in done then Network4(lease) else None,
           ip6Sn := if Subnet6 in done then Some(n6) else None)
  }

  lemma PrintedNetwork(n: Cidr.Net)
    requires Cidr.Wf(n)
    ensures '\n' !in Cidr.Print(n) && Chomp(Cidr.Print(n)) == Cidr.Print(n)
  {
    Cidr.AddressBack(n.base);
    var s, len := Cidr.Print(n), Decimal.Print(n.len);
    assert s[|s| - 1] == len[|len| - 1];
  }

  lemma WrittenIsLine(lease: Lease, six: Parser6, n6: Network, k: Kind)
    requires Sound(lease, six, n6) && Written(lease, k).Some?
    ensures '\n' !in Written(lease, k).value && Chomp(Written(lease, k).value) == Written(lease, k).value
  {
    if k == Subnet {
      PrintedNetwork(lease.cidrIPv4[0]);
    }
  }

  lemma NetworkLoads(lease: Lease, six: Parser6, n6: Network, done: set<Kind>)
    requires Sound(lease, six, n6) && lease.cidrIPv4 != []
    ensures ParseCIDR(Cidr.Print(lease.cidrIPv4[0]), six) == Network4(lease)
  {
    assert lease.cidrIPv4[0] in lease.cidrIPv4;
    Cidr.ParsePrint(lease.cidrIPv4[0]);
  }

  /** Reading a network, and reading the MTU. */
  lemma SetNetwork(se: Env, text: string, n: Network, six: Parser6)
    requires ParseCIDR(text, six) == Some(n)
    ensures SetKey(se, Subnet, text, six) == Ok(se.(sn := Some(n)))
    ensures SetKey(se, Subnet6, text, six) == Ok(se.(ip6Sn := Some(n)))
  {
  }

  lemma SetMtu(se: Env, six: Parser6)
    ensures SetKey(se, Mtu, "1450", six) == Ok(se.(mtu := Some(1450)))
    ensures SetKey(se, IpMasq, "true", six) == Ok(se.(ipmasq := Some(true)))
  {
    MtuValue();
  }

  lemma AfterMore(lease: Lease, n6: Network, done: set<Kind>)
    requires forall n | n in lease.cidrIPv4 :: Cidr.Wf(n)
    ensures var se := After(lease, n6, done);
            && After(lease, n6, done + {Mtu}) == se.(mtu := Some(1450))
            && After(lease, n6, done + {IpMasq}) == se.(ipmasq := Some(true))
            && After(lease, n6, done + {Subnet}) == se.(sn := Network4(lease))
            && After(lease, n6, done + {Subnet6}) == se.(ip6Sn := Some(n6))
  {
  }

  /** One more key read. */
  lemma KeyLoads(lease: Lease, six: Parser6, n6: Network, done: set<Kind>, k: Kind)
    requires Sound(lease, six, n6) && Written(lease, k).Some?
    ensures SetKey(After(lease, n6, done), k, Written(lease, k).value, six) == Ok(After(lease, n6, done + {k}))
  {
    var se := After(lease, n6, done);
    AfterMore(lease, n6, done);
    match k
    case Subnet =>
      NetworkLoads(lease, six, n6, done);
      SetNetwork(se, Written(lease, k).value, Network4(lease).value, six);
    case Subnet6 => SetNetwork(se, Written(lease, k).value, n6, six);
    case Mtu => SetMtu(se, six);
    case IpMasq => SetMtu(se, six);
    case _ =>
  }

  /** The line of one key. */
  lemma LineLoads(lease: Lease, six: Parser6, n6: Network, done: set<Kind>, k: Kind)
    requires Sound(lease, six, n6) && Written(lease, k).Some?
    ensures LoadLine(After(lease, n6, done), Chomp(Entry(Name(k), Written(lease, k).value)), six)
            == Ok(After(lease, n6, done + {k}))
    ensures '\n' !in Entry(Name(k), Written(lease, k).value)
  {
    UpperName(k);
    NamesDiffer(k, k);
    WrittenIsLine(lease, six, n6, k);
    EntryBack(Name(k), Written(lease, k).value);
    KeyLoads(lease, six, n6, done, k);
  }

  function Kinds(order: seq<string>): set<Kind> { set k | k in order && KindOf(k).Some? :: KindOf(k).value }

  lemma OneMoreEntry(front: seq<string>, key: string, m: map<string, string>)
    requires key in m && forall k | k in front :: k in m
    ensures Entries(front + [key], m) == Entries(front, m) + [Entry(key, m[key])]
    ensures Chomped(Entries(front + [key], m)) == Chomped(Entries(front, m)) + [Chomp(Entry(key, m[key]))]
  {
  }

  lemma OneMoreLine(lines: seq<string>, line: string, six: Parser6, se: Env)
    requires LoadLines(lines, six) == Ok(se)
    ensures LoadLines(lines + [line], six) == LoadLine(se, line, six)
  {
    assert (lines + [line])[..|lines|] == lines;
  }

  lemma OneMoreKey(lease: Lease, six: Parser6, n6: Network, front: seq<string>, key: string)
    requires Sound(lease, six, n6) && key in GetSubnetMap(lease)
    ensures LoadLine(After(lease, n6, Kinds(front)), Chomp(Entry(key, GetSubnetMap(lease)[key])), six)
            == Ok(After(lease, n6, Kinds(front + [key])))
    ensures '\n' !in Entry(key, GetSubnetMap(lease)[key])
  {
    MapKinds(lease, key);
    KindNamed(key);
    var k := KindOf(key).value;
    MapWritten(lease, k);
    LineLoads(lease, six, n6, Kinds(front), k);
    assert Kinds(front + [key]) == Kinds(front) + {k};
  }

  lemma {:induction false} PrefixLoads(lease: Lease, six: Parser6, n6: Network, order: seq<string>)
    requires Sound(lease, six, n6) && forall k | k in order :: k in GetSubnetMap(lease)
    ensures LoadLines(Chomped(Entries(order, GetSubnetMap(lease))), six) == Ok(After(lease, n6, Kinds(order)))
    ensures forall i | 0 <= i < |order| :: '\n' !in Entries(order, GetSubnetMap(lease))[i]
  {
    var m := GetSubnetMap(lease);
    if order == [] {
      assert Kinds(order) == {};
    } else {
      var front, key := order[..|order| - 1], order[|order| - 1];
      assert order == front + [key];
      PrefixLoads(lease, six, n6, front);
      OneMoreEntry(front, key, m);
      OneMoreKey(lease, six, n6, front, key);
      OneMoreLine(Chomped(Entries(front, m)), Chomp(Entry(key, m[key])), six, After(lease, n6, Kinds(front)));
    }
  }

  lemma AllKinds(lease: Lease, order: seq<string>, k: Kind)
    requires forall n | n in lease.cidrIPv4 :: Cidr.Wf(n)
    requires forall s :: s in order <==> s in GetSubnetMap(lease)
    ensures k in Kinds(order) <==> Written(lease, k).Some?
  {
    MapWritten(lease, k);
    NamesDiffer(k, k);
    if k in Kinds(order) {
      var s :| s in order && KindOf(s) == Some(k);
      KindNamed(s);
    }
    if Written(lease, k).Some? {
      assert Name(k) in order;
    }
  }

  lemma LoadOfLines(text: string, lines: seq<string>, six: Parser6, se: Env)
    requires ScanLines(text) == lines && LoadLines(lines, six) == Ok(se)
    ensures LoadOf(text, six) == if Complete(se) then Ok(se) else Error
  {
  }

  lemma AfterAll(lease: Lease, n6: Network, done: set<Kind>)
    requires forall n | n in lease.cidrIPv4 :: Cidr.Wf(n)
    requires forall k: Kind :: k in done <==> Written(lease, k).Some?
    ensures var se := After(lease, n6, done);
            && (Complete(se) <==> lease.cidrIPv4 != [] || lease.cidrIPv6 != [])
            && se.sn == Network4(lease)
            && se.ip6Sn == (if lease.cidrIPv6 != [] then Some(n6) else None)
            && se.mtu == Some(1450) && se.ipmasq == Some(true)
  {
    assert Written(lease, Mtu).Some? && Written(lease, IpMasq).Some?;
    assert Written(lease, Subnet).Some? <==> lease.cidrIPv4 != [];
    assert Written(lease, Subnet6).Some? <==> lease.cidrIPv6 != [];
  }

  /**
   * Whatever order the daemon writes the keys in, the plugin loads the file exactly if the lease has a network,
   * and then finds that network, with host bits cleared.
   */
  lemma LeaseLoads(lease: Lease, six: Parser6, n6: Network, order: seq<string>)
    requires Sound(lease, six, n6) && forall s :: s in order <==> s in GetSubnetMap(lease)
    ensures var r := LoadOf(Concat(Ended(Entries(order, GetSubnetMap(lease)), '\n')), six);
            if lease.cidrIPv4 == [] && lease.cidrIPv6 == [] then r == Error
            else
              && r.Ok?
              && r.env.sn == Network4(lease)
              && r.env.ip6Sn == (if lease.cidrIPv6 != [] then Some(n6) else None)
              && r.env.mtu == Some(1450) && r.env.ipmasq == Some(true)
  {
    var entries := Entries(order, GetSubnetMap(lease));
    PrefixLoads(lease, six, n6, order);
    LinesBack(entries);
    forall k: Kind ensures k in Kinds(order) <==> Written(lease, k).Some? {
      AllKinds(lease, order, k);
    }
    AfterAll(lease, n6, Kinds(order));
    LoadOfLines(Concat(Ended(entries, '\n')), Chomped(entries), six, After(lease, n6, Kinds(order)));
  }

  // ---- what stops the plugin ----

  /** A line gives an index out of range exactly if it is a known key alone. */
  lemma BareKey(se: Env, line: string, six: Parser6)
    ensures LoadLine(se, line, six) == Index <==> exists k: Kind :: line == Name(k)
  {
    KindNamed(line);
    forall k: Kind ensures line == Name(k) ==> KindOf(line) == Some(k) && '=' !in line {
      NamesDiffer(k, k);
      UpperName(k);
    }
    if Cut(line, '=').None? && KindOf(line).Some? {
      assert line == Name(KindOf(line).value);
    }
  }

  /** Line i is a known key alone, and the lines before it were read without an error. */
  ghost predicate BareAt(lines: seq<string>, six: Parser6, i: nat)
    requires i < |lines|
  {
    LoadLines(lines[..i], six).Ok? && exists k: Kind :: lines[i] == Name(k)
  }

  lemma BareIsIndex(lines: seq<string>, six: Parser6, i: nat)
    requires i < |lines| && BareAt(lines, six, i)
    ensures LoadLines(lines, six) == Index
  {
    assert lines[..i + 1][..i] == lines[..i];
    BareKey(LoadLines(lines[..i], six).env, lines[i], six);
    Stopped(lines, i + 1, six);
  }

  lemma {:induction false} IndexIsBare(lines: seq<string>, six: Parser6) returns (i: nat)
    requires LoadLines(lines, six) == Index
    ensures i < |lines| && BareAt(lines, six, i)
  {
    var n := |lines| - 1;
    var before := LoadLines(lines[..n], six);
    if before.Ok? {
      i := n;
      BareKey(before.env, lines[n], six);
    } else {
      i := IndexIsBare(lines[..n], six);
      assert lines[..n][..i] == lines[..i];
    }
  }

  /**
   * The plugin stops with an index out of range exactly if some line of the file is a known key alone and no line
   * before it is in error.
   */
  lemma BareKeyStops(text: string, six: Parser6)
    ensures LoadOf(text, six) == Index
            <==> exists i :: 0 <= i < |ScanLines(text)| && BareAt(ScanLines(text), six, i)
  {
    var lines := ScanLines(text);
    if LoadLines(lines, six) == Index {
      var i := IndexIsBare(lines, six);
    }
    if i :| 0 <= i < |lines| && BareAt(lines, six, i) {
      BareIsIndex(lines, six, i);
    }
  }
}
