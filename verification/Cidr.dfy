/** IPv4 networks and their CIDR text, as net.IPNet prints and net.ParseCIDR reads it (section 3.1 of RFC 4632). */
module Cidr {
  import opened Common
  import Decimal
  import opened Text

  /** An address and a prefix length. */
  datatype Net = Net(base: nat, len: nat)

  predicate Wf(n: Net) { n.base < TWO32 && n.len <= 32 }

  function Pow2(n: nat): (p: nat)
    ensures p > 0
  {
    if n == 0 then 1 else 2 * Pow2(n - 1)
  }

  /** Number of addresses in a network of this prefix length. */
  function Block(len: nat): nat
    requires len <= 32
  {
    Pow2(32 - len)
  }

  predicate In(n: Net, ip: nat)
    requires n.len <= 32
  {
    ip / Block(n.len) == n.base / Block(n.len)
  }

  lemma MulMono(a: nat, b: nat, c: nat)
    requires a <= b
    ensures a * c <= b * c
  {
  }

  lemma DivUnique(a: nat, b: nat, q: nat)
    requires b > 0 && q * b <= a < q * b + b
    ensures a / b == q
  {
    var d := a / b;
    assert a == d * b + a % b;
    if d < q {
      MulMono(d + 1, q, b);
    } else if d > q {
      MulMono(q + 1, d, b);
    }
  }

  /** Rounding down to a multiple of b. */
  lemma RoundDown(a: nat, b: nat)
    requires b > 0
    ensures a / b * b <= a
    ensures (a / b * b) / b == a / b && (a / b * b) % b == 0
    ensures a % b == 0 <==> a / b * b == a
  {
    assert a == a / b * b + a % b;
    DivUnique(a / b * b, b, a / b);
  }

  /** a rounded down to a multiple of b. */
  function Rounded(a: nat, b: nat): (r: nat)
    requires b > 0
    ensures r <= a && r / b == a / b && r % b == 0
    ensures r == a <==> a % b == 0
  {
    RoundDown(a, b);
    a / b * b
  }

  /** The network with the host bits of its address cleared. */
  function Masked(n: Net): Net
    requires n.len <= 32
  {
    Net(Rounded(n.base, Block(n.len)), n.len)
  }

  /** Clearing the host bits keeps the set of addresses. */
  lemma MaskedSame(n: Net)
    requires n.len <= 32
    ensures forall ip: nat :: In(Masked(n), ip) <==> In(n, ip)
    ensures Masked(n) == n <==> n.base % Block(n.len) == 0
  {
    assert Rounded(n.base, Block(n.len)) / Block(n.len) == n.base / Block(n.len);
  }

  // ---- text ----

  function Octets(base: nat): seq<nat>
    requires base < TWO32
  {
    [base / 0x100_0000, base / 0x1_0000 % 0x100, base / 0x100 % 0x100, base % 0x100]
  }

  function PrintAddress(base: nat): string
    requires base < TWO32
  {
    Join(Fields(Octets(base)), '.')
  }

  function Print(n: Net): string
    requires Wf(n)
  {
    PrintAddress(n.base) + "/" + Decimal.Print(n.len)
  }

  /** One field of a dotted address: no leading zero, at most 255. */
  function ParseOctet(s: string): Option<nat> {
    if |s| > 1 && s[0] == '0' then None else Decimal.ParseUint(s, 0x100)
  }

  /** The address of four octets, if all of them are there. */
  function Combine(a: Option<nat>, b: Option<nat>, c: Option<nat>, d: Option<nat>): Option<nat> {
    match (a, b, c, d)
    case (Some(a), Some(b), Some(c), Some(d)) => Some(((a * 0x100 + b) * 0x100 + c) * 0x100 + d)
    case _ => None
  }

  function ParseAddress(s: string): (r: Option<nat>)
    ensures r.Some? ==> r.value < TWO32
  {
    var f := Split(s, '.');
    if |f| != 4 then None else Combine(ParseOctet(f[0]), ParseOctet(f[1]), ParseOctet(f[2]), ParseOctet(f[3]))
  }

  /** The network of the text; the host bits of the address are cleared. */
  function Parse(s: string): (r: Option<Net>)
    ensures r.Some? ==> Wf(r.value) && r.value.base % Block(r.value.len) == 0
  {
    match Cut(s, '/')
    case None => None
    case Some((address, length)) =>
      match (ParseAddress(address), Decimal.ParseUint(length, 33))
      case (Some(base), Some(len)) => Some(Masked(Net(base, len)))
      case _ => None
  }

  lemma DigitsAre(s: string, c: char)
    requires Decimal.AllDigits(s) && !Decimal.IsDigit(c)
    ensures c !in s
  {
  }

  function Number(o: seq<nat>): nat
    requires |o| == 4
  {
    ((o[0] * 0x100 + o[1]) * 0x100 + o[2]) * 0x100 + o[3]
  }

  lemma SplitDigits(n: nat, b: nat)
    requires b > 0
    ensures n / b * b + n % b == n
  {
  }

  lemma OctetsBack(base: nat)
    requires base < TWO32
    ensures Number(Octets(base)) == base
    ensures forall i | 0 <= i < 4 :: Octets(base)[i] < 0x100
  {
    SplitDigits(base, 0x100);
    SplitDigits(base / 0x100, 0x100);
    SplitDigits(base / 0x1_0000, 0x100);
    assert base / 0x100 / 0x100 == base / 0x1_0000 && base / 0x1_0000 / 0x100 == base / 0x100_0000;
  }

  function Fields(o: seq<nat>): seq<string>
    requires |o| == 4
  {
    [Decimal.Print(o[0]), Decimal.Print(o[1]), Decimal.Print(o[2]), Decimal.Print(o[3])]
  }

  lemma FieldsBack(o: seq<nat>)
    requires |o| == 4 && forall i | 0 <= i < 4 :: o[i] < 0x100
    ensures Split(Join(Fields(o), '.'), '.') == Fields(o)
    ensures forall i | 0 <= i < 4 :: ParseOctet(Fields(o)[i]) == Some(o[i])
  {
    var f := Fields(o);
    forall i | 0 <= i < 4 ensures '.' !in f[i] && ParseOctet(f[i]) == Some(o[i]) {
      DigitsAre(f[i], '.');
      Decimal.ParsePrint(o[i], 0x100);
    }
    SplitJoin(f, '.');
  }

  lemma {:induction false} JoinedChars(parts: seq<string>, d: char)
    requires parts != [] && forall i | 0 <= i < |parts| :: Decimal.AllDigits(parts[i])
    ensures forall c | c in Join(parts, d) :: Decimal.IsDigit(c) || c == d
  {
    if |parts| > 1 {
      JoinedChars(parts[1..], d);
    }
  }

  lemma AddressChars(base: nat)
    requires base < TWO32
    ensures forall c | c in PrintAddress(base) :: Decimal.IsDigit(c) || c == '.'
  {
    JoinedChars(Fields(Octets(base)), '.');
  }

  lemma ParseFour(s: string, f: seq<string>, o: seq<nat>)
    requires Split(s, '.') == f && |f| == |o| == 4 && forall i | 0 <= i < 4 :: ParseOctet(f[i]) == Some(o[i])
    ensures ParseAddress(s) == Some(Number(o))
  {
  }

  lemma JoinedBack(o: seq<nat>)
    requires |o| == 4 && forall i | 0 <= i < 4 :: o[i] < 0x100
    ensures ParseAddress(Join(Fields(o), '.')) == Some(Number(o))
  {
    FieldsBack(o);
    ParseFour(Join(Fields(o), '.'), Fields(o), o);
  }

  lemma AddressBack(base: nat)
    requires base < TWO32
    ensures ParseAddress(PrintAddress(base)) == Some(base)
    ensures forall c | c in PrintAddress(base) :: Decimal.IsDigit(c) || c == '.'
  {
    OctetsBack(base);
    JoinedBack(Octets(base));
    AddressChars(base);
  }

  /** Reading the printed text gives the network with its host bits cleared. */
  lemma ParsePrint(n: Net)
    requires Wf(n)
    ensures Parse(Print(n)) == Some(Masked(n))
  {
    AddressBack(n.base);
    Decimal.ParsePrint(n.len, 33);
    assert '/' !in PrintAddress(n.base);
    CutAt(PrintAddress(n.base), '/', Decimal.Print(n.len));
  }

  /** Exactly the networks without host bits survive the round trip; different networks print differently. */
  lemma PrintInjective(n: Net, m: Net)
    requires Wf(n) && Wf(m)
    ensures Parse(Print(n)) == Some(n) <==> n.base % Block(n.len) == 0
    ensures Print(n) == Print(m) ==> n == m
  {
    ParsePrint(n);
    AddressBack(n.base);
    AddressBack(m.base);
    Decimal.ParsePrint(n.len, 33);
    Decimal.ParsePrint(m.len, 33);
    assert '/' !in PrintAddress(n.base) && '/' !in PrintAddress(m.base);
    CutAt(PrintAddress(n.base), '/', Decimal.Print(n.len));
    CutAt(PrintAddress(m.base), '/', Decimal.Print(m.len));
  }
}
