/** What the plugin reads from any file: for each key its last line counts, and every line must be well formed. */
module SubnetFields {
  import opened Common
  import opened Text
  import opened SubnetEnv
  import Decimal

  /** The text after NAME= in such a line. */
  function ValueIn(line: string, name: string): Option<string> {
    if |line| > |name| && line[..|name|] == name && line[|name|] == '=' then Some(line[|name| + 1..]) else None
  }

  /** The value in the last line of the key. */
  function LastValue(lines: seq<string>, name: string): Option<string> {
    if lines == [] then None
    else
      var v := ValueIn(lines[|lines| - 1], name);
      if v.Some? then v else LastValue(lines[..|lines| - 1], name)
  }

  /** The networks of a list that is separated by commas, each once. */
  ghost predicate NetworksIn(text: string, six: Parser6, nws: seq<Network>) {
    && NoDuplicates(nws)
    && forall n :: n in nws <==> exists c | c in Split(text, ',') :: ParseCIDR(c, six) == Some(n)
  }

  /** The field of a key holds what its value says. */
  ghost predicate FieldIs(se: Env, k: Kind, v: string, six: Parser6) {
    match k
    case Networks => NetworksIn(v, six, se.nws)
    case Subnet => se.sn.Some? && se.sn == ParseCIDR(v, six)
    case Networks6 => NetworksIn(v, six, se.ip6Nws)
    case Subnet6 => se.ip6Sn.Some? && se.ip6Sn == ParseCIDR(v, six)
    case Mtu => se.mtu.Some? && se.mtu == Decimal.ParseUint(v, TWO32)
    case IpMasq => se.ipmasq == Some(v == "true")
    case Backend => se.backend == v
  }

  /** The field of a key that is not in the file. */
  predicate FieldUnset(se: Env, k: Kind) {
    match k
    case Networks => se.nws == []
    case Subnet => se.sn == None
    case Networks6 => se.ip6Nws == []
    case Subnet6 => se.ip6Sn == None
    case Mtu => se.mtu == None
    case IpMasq => se.ipmasq == None
    case Backend => se.backend == ""
  }

  ghost predicate FieldFrom(se: Env, k: Kind, v: Option<string>, six: Parser6) {
    match v case None => FieldUnset(se, k) case Some(text) => FieldIs(se, k, text, six)
  }

  ghost predicate Fields(lines: seq<string>, six: Parser6, se: Env) {
    forall k: Kind :: FieldFrom(se, k, LastValue(lines, Name(k)), six)
  }

  /** The value of a key can be read. */
  predicate GoodValue(k: Kind, v: string, six: Parser6) {
    match k
    case Networks => forall c | c in Split(v, ',') :: ParseCIDR(c, six).Some?
    case Networks6 => forall c | c in Split(v, ',') :: ParseCIDR(c, six).Some?
    case Subnet => ParseCIDR(v, six).Some?
    case Subnet6 => ParseCIDR(v, six).Some?
    case Mtu => Decimal.ParseUint(v, TWO32).Some?
    case _ => true
  }

  /** The line is no key alone, and its value can be read. */
  ghost predicate GoodLine(line: string, six: Parser6) {
    forall k: Kind ::
      line != Name(k) && (ValueIn(line, Name(k)).Some? ==> GoodValue(k, ValueIn(line, Name(k)).value, six))
  }

  lemma KeyNames()
    ensures Name(Networks) == "NETWORK" && Name(Subnet) == "SUBNET" && Name(Networks6) == "IPV6_NETWORK"
    ensures Name(Subnet6) == "IPV6_SUBNET" && Name(Mtu) == "MTU" && Name(IpMasq) == "IPMASQ"
    ensures Name(Backend) == "BACKEND"
  {
  }

  // ---- one line ----

  lemma ValueIsCut(line: string, name: string)
    requires '=' !in name
    ensures ValueIn(line, name).Some? <==> Cut(line, '=').Some? && Cut(line, '=').value.0 == name
    ensures ValueIn(line, name).Some? ==> Cut(line, '=').value.1 == ValueIn(line, name).value
  {
    if ValueIn(line, name).Some? {
      var v := ValueIn(line, name).value;
      assert line == name + ['='] + v;
      CutAt(name, '=', v);
    }
  }

  lemma {:induction false} NetworksRead(cidrs: seq<string>, six: Parser6)
    ensures ReadNetworks(cidrs, six).Some? <==> forall c | c in cidrs :: ParseCIDR(c, six).Some?
    ensures ReadNetworks(cidrs, six).Some? ==>
              && NoDuplicates(ReadNetworks(cidrs, six).value)
              && forall n :: n in ReadNetworks(cidrs, six).value
                             <==> exists c | c in cidrs :: ParseCIDR(c, six) == Some(n)
  {
    if cidrs != [] {
      var front, c := cidrs[..|cidrs| - 1], cidrs[|cidrs| - 1];
      assert cidrs == front + [c];
      NetworksRead(front, six);
    }
  }

  /** A value sets the field of its key and no other. */
  lemma ValueSets(se: Env, k: Kind, v: string, six: Parser6)
    ensures SetKey(se, k, v, six).Ok? <==> GoodValue(k, v, six)
    ensures SetKey(se, k, v, six) != Index
    ensures GoodValue(k, v, six) ==> FieldIs(SetKey(se, k, v, six).env, k, v, six)
  {
    NetworksRead(Split(v, ','), six);
  }

  lemma OthersStay(se: Env, k: Kind, v: string, six: Parser6, j: Kind, w: Option<string>)
    requires j != k && SetKey(se, k, v, six).Ok?
    ensures FieldFrom(SetKey(se, k, v, six).env, j, w, six) <==> FieldFrom(se, j, w, six)
  {
  }

  lemma AllValues(line: string)
    ensures forall k: Kind ::
              ValueIn(line, Name(k)).Some? <==> Cut(line, '=').Some? && Cut(line, '=').value.0 == Name(k)
    ensures forall k: Kind :: ValueIn(line, Name(k)).Some? ==> Cut(line, '=').value.1 == ValueIn(line, Name(k)).value
    ensures forall a: Kind, b: Kind :: Name(a) == Name(b) <==> a == b
  {
    forall k: Kind
      ensures ValueIn(line, Name(k)).Some? <==> Cut(line, '=').Some? && Cut(line, '=').value.0 == Name(k)
      ensures ValueIn(line, Name(k)).Some? ==> Cut(line, '=').value.1 == ValueIn(line, Name(k)).value
    {
      UpperName(k);
      ValueIsCut(line, Name(k));
    }
    forall a: Kind, b: Kind ensures Name(a) == Name(b) <==> a == b {
      NamesDiffer(a, b);
    }
  }

  /** One more line. */
  lemma LineSets(lines: seq<string>, line: string, six: Parser6, se: Env)
    requires Fields(lines, six, se)
    ensures LoadLine(se, line, six).Ok? <==> GoodLine(line, six)
    ensures GoodLine(line, six) ==> Fields(lines + [line], six, LoadLine(se, line, six).env)
  {
    AllValues(line);
    AllKeys(line);
    assert (lines + [line])[..|lines|] == lines;
    var cut := Cut(line, '=');
    if cut.Some? && KindOf(cut.value.0).Some? {
      KindNamed(cut.value.0);
      var k := KindOf(cut.value.0).value;
      ValueSets(se, k, cut.value.1, six);
      if GoodValue(k, cut.value.1, six) {
        forall j: Kind, w | j != k
          ensures FieldFrom(SetKey(se, k, cut.value.1, six).env, j, w, six) <==> FieldFrom(se, j, w, six)
        {
          OthersStay(se, k, cut.value.1, six, j, w);
        }
      }
    }
  }

  /** A key alone has no = in it, and is recognised. */
  lemma AllKeys(line: string)
    ensures forall k: Kind :: KindOf(Name(k)) == Some(k)
    ensures forall k: Kind :: line == Name(k) ==> Cut(line, '=').None?
    ensures KindOf(line).Some? ==> Name(KindOf(line).value) == line
  {
    KindNamed(line);
    forall k: Kind ensures KindOf(Name(k)) == Some(k) && (line == Name(k) ==> Cut(line, '=').None?) {
      NamesDiffer(k, k);
      UpperName(k);
    }
  }

  // ---- whole files ----

  lemma {:induction false} LinesSet(lines: seq<string>, six: Parser6)
    ensures LoadLines(lines, six).Ok? <==> forall l | l in lines :: GoodLine(l, six)
    ensures LoadLines(lines, six).Ok? ==> Fields(lines, six, LoadLines(lines, six).env)
  {
    if lines != [] {
      var front, line := lines[..|lines| - 1], lines[|lines| - 1];
      assert lines == front + [line];
      LinesSet(front, six);
      if LoadLines(front, six).Ok? {
        LineSets(front, line, six, LoadLines(front, six).env);
      }
    }
  }

  /**
   * A file loads exactly if every line is well formed and some line sets a network of the node and some line IPMASQ;
   * then each field holds what the last line of its key says, or nothing.
   */
  lemma FileFields(text: string, six: Parser6)
    ensures var lines := ScanLines(text);
            && (LoadOf(text, six).Ok?
                <==> && (forall l | l in lines :: GoodLine(l, six))
                     && (LastValue(lines, "SUBNET").Some? || LastValue(lines, "IPV6_SUBNET").Some?)
                     && LastValue(lines, "IPMASQ").Some?)
            && (LoadOf(text, six).Ok? ==> Fields(lines, six, LoadOf(text, six).env))
  {
    var lines := ScanLines(text);
    KeyNames();
    LinesSet(lines, six);
    if LoadLines(lines, six).Ok? {
      var se := LoadLines(lines, six).env;
      assert FieldFrom(se, Subnet, LastValue(lines, Name(Subnet)), six);
      assert FieldFrom(se, Subnet6, LastValue(lines, Name(Subnet6)), six);
      assert FieldFrom(se, IpMasq, LastValue(lines, Name(IpMasq)), six);
    }
  }
}
