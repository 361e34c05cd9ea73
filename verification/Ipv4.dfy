/** IPv4 addresses and networks in the notation of section 3.1 of RFC 4632. */
module Ipv4 {
  import opened Powers
  import opened Text

  // ---------------------------------------------------------------------------
  // Parsing
  // ---------------------------------------------------------------------------

  /** One to three digits, no leading zero, at most 255. */
  function ParseOctet(s: string): Option<nat> {
    if s == "" || !AllDigits(s) || |s| > 3 || (s != "0" && s[0] == '0') || ParseNat(s) > 255 then None
    else Some(ParseNat(s))
  }

  /** `ip_address`, for IPv4: four octets. */
  function ParseAddress(s: string): Option<nat> {
    var parts := Split(s, '.');
    if |parts| != 4 then None
    else
      match (ParseOctet(parts[0]), ParseOctet(parts[1]), ParseOctet(parts[2]), ParseOctet(parts[3]))
      case (Some(a), Some(b), Some(c), Some(d)) => Some(((a * 256 + b) * 256 + c) * 256 + d)
      case _ => None
  }

  /** A network by one of its addresses and its prefix length. */
  datatype Network = Network(address: nat, prefix: nat)

  /** `ip_network(s, strict=False)`, for IPv4 with a numeric prefix length. */
  function ParseNetwork(s: string): (r: Option<Network>)
    ensures r.Some? ==> r.value.prefix <= 32
  {
    var parts := Split(s, '/');
    if |parts| == 2 && parts[1] != "" && AllDigits(parts[1]) && ParseNat(parts[1]) <= 32
       && ParseAddress(parts[0]).Some? then
      Some(Network(ParseAddress(parts[0]).value, ParseNat(parts[1])))
    else None
  }

  // ---------------------------------------------------------------------------
  // What is an address
  // ---------------------------------------------------------------------------

  /** The decimal numeral of a number up to 255. */
  predicate IsOctet(s: string) {
    exists n: nat :: n <= 255 && s == Decimal(n)
  }

  /** Four octets, separated by dots. */
  predicate IsAddress(s: string) {
    |Split(s, '.')| == 4 && forall p :: p in Split(s, '.') ==> IsOctet(p)
  }

  /** An address, a slash and a number up to 32. */
  predicate IsNetwork(s: string) {
    var parts := Split(s, '/');
    |parts| == 2 && IsAddress(parts[0]) && parts[1] != "" && AllDigits(parts[1]) && ParseNat(parts[1]) <= 32
  }

  lemma ShortDecimal(n: nat)
    requires n <= 255
    ensures |Decimal(n)| <= 3
  {
    assert n < 100 || |Decimal(n / 10)| == 2;
  }

  lemma OctetIff(s: string)
    ensures ParseOctet(s).Some? <==> IsOctet(s)
  {
    if ParseOctet(s).Some? {
      DecimalParse(s);
    }
    if IsOctet(s) {
      var n: nat :| n <= 255 && s == Decimal(n);
      ShortDecimal(n);
      ParseDecimal(n);
      if n > 0 {
        DecimalFirst(n);
      }
    }
  }

  lemma AddressIff(s: string)
    ensures ParseAddress(s).Some? <==> IsAddress(s)
  {
    hide ParseOctet, IsOctet, Split;
    var parts := Split(s, '.');
    if |parts| == 4 {
      OctetIff(parts[0]);
      OctetIff(parts[1]);
      OctetIff(parts[2]);
      OctetIff(parts[3]);
      assert forall p :: p in parts <==> p == parts[0] || p == parts[1] || p == parts[2] || p == parts[3];
    }
  }

  lemma NetworkIff(s: string)
    ensures ParseNetwork(s).Some? <==> IsNetwork(s)
  {
    hide ParseAddress, IsAddress, Split;
    AddressIff(Split(s, '/')[0]);
  }

  lemma OctetValue(n: nat)
    requires n <= 255
    ensures ParseOctet(Decimal(n)) == Some(n)
  {
    assert IsOctet(Decimal(n));
    OctetIff(Decimal(n));
    ParseDecimal(n);
  }

  lemma OctetPlain(n: nat)
    ensures '.' !in Decimal(n) && '/' !in Decimal(n)
  {
    hide Decimal;
  }

  /** The written form of an address. */
  function Dotted(a: nat, b: nat, c: nat, d: nat): string {
    Decimal(a) + ['.'] + (Decimal(b) + ['.'] + (Decimal(c) + ['.'] + Decimal(d)))
  }

  /** The first octet is the most significant one. */
  lemma AddressValue(a: nat, b: nat, c: nat, d: nat)
    requires a <= 255 && b <= 255 && c <= 255 && d <= 255
    ensures ParseAddress(Dotted(a, b, c, d)) == Some(a * 16777216 + b * 65536 + c * 256 + d)
  {
    hide Decimal, Split, ParseOctet;
    OctetPlain(a);
    OctetPlain(b);
    OctetPlain(c);
    OctetPlain(d);
    SplitOne(Decimal(d), '.');
    SplitCons(Decimal(c), '.', Decimal(d));
    SplitCons(Decimal(b), '.', Decimal(c) + ['.'] + Decimal(d));
    SplitCons(Decimal(a), '.', Decimal(b) + ['.'] + (Decimal(c) + ['.'] + Decimal(d)));
    var parts := Split(Dotted(a, b, c, d), '.');
    assert parts == [Decimal(a), Decimal(b), Decimal(c), Decimal(d)];
    OctetValue(a);
    OctetValue(b);
    OctetValue(c);
    OctetValue(d);
  }

  /** A network is what is written before and behind the slash. */
  lemma NetworkValue(s: string, x: nat, p: nat)
    requires '/' !in s && ParseAddress(s) == Some(x) && p <= 32
    ensures ParseNetwork(s + ['/'] + Decimal(p)) == Some(Network(x, p))
  {
    hide Decimal, Split, ParseAddress, ParseNat;
    OctetPlain(p);
    SplitOne(Decimal(p), '/');
    SplitCons(s, '/', Decimal(p));
    assert Split(s + ['/'] + Decimal(p), '/') == [s, Decimal(p)];
    ParseDecimal(p);
  }

  // ---------------------------------------------------------------------------
  // Networks as sets of addresses
  // ---------------------------------------------------------------------------

  /** The number of addresses that share the prefix. */
  function Size(net: Network): (n: nat)
    requires net.prefix <= 32
    ensures n > 0
  {
    Pow2(32 - net.prefix)
  }

  function Quotient(x: nat, n: nat): nat
    requires n > 0
  {
    x / n
  }

  /** `addr in net`: the addresses agree on the prefix. */
  predicate In(x: nat, net: Network)
    requires net.prefix <= 32
  {
    Quotient(x, Size(net)) == Quotient(net.address, Size(net))
  }

  lemma MulMonotone(a: nat, b: nat, n: nat)
    requires a <= b
    ensures 0 <= a * n <= b * n
  {
    assert b * n == a * n + (b - a) * n;
  }

  function Product(a: nat, b: nat): (p: nat)
    ensures p == a * b
  {
    MulMonotone(a, a, b);
    a * b
  }

  /** The network address. */
  function Base(net: Network): nat
    requires net.prefix <= 32
  {
    Product(Quotient(net.address, Size(net)), Size(net))
  }

  lemma DivBounds(x: nat, n: nat)
    requires n > 0
    ensures x / n * n <= x < x / n * n + n
  {
    assert x == x / n * n + x % n;
  }

  lemma DivUnique(x: nat, n: nat, q: nat)
    requires n > 0 && q * n <= x < q * n + n
    ensures x / n == q
  {
    DivBounds(x, n);
    var d := x / n;
    assert (d + 1) * n == d * n + n && (q + 1) * n == q * n + n;
    MulCancel(q, d + 1, n);
    MulCancel(d, q + 1, n);
  }

  lemma MulCancel(a: nat, b: nat, n: nat)
    requires a * n < b * n
    ensures a < b
  {
    if b <= a {
      MulMonotone(b, a, n);
    }
  }

  predicate Within(x: nat, from: nat, n: nat) {
    from <= x < from + n
  }

  /** A network is the interval of addresses that starts at its base. */
  lemma InIffInterval(x: nat, net: Network)
    requires net.prefix <= 32
    ensures In(x, net) <==> Within(x, Base(net), Size(net))
  {
    hide Pow2;
    var n := Size(net);
    var q := net.address / n;
    DivBounds(x, n);
    assert Base(net) == q * n;
    if Within(x, q * n, n) {
      DivUnique(x, n, q);
    }
  }

  ghost function Interval(from: nat, n: nat): set<nat> {
    set x: nat | from <= x < from + n && Within(x, from, n)
  }

  ghost function Members(net: Network): set<nat>
    requires net.prefix <= 32
  {
    Interval(Base(net), Size(net))
  }

  lemma {:induction false} IntervalSize(from: nat, n: nat)
    ensures |Interval(from, n)| == n
  {
    if n == 0 {
      assert Interval(from, n) == {};
    } else {
      IntervalSize(from, n - 1);
      assert Interval(from, n) == Interval(from, n - 1) + {from + n - 1};
    }
  }

  /** A /p network has exactly 2^(32-p) members, and they are the addresses in it. */
  lemma MemberCount(net: Network)
    requires net.prefix <= 32
    ensures |Members(net)| == Pow2(32 - net.prefix)
    ensures forall x: nat :: x in Members(net) <==> In(x, net)
  {
    hide Pow2;
    IntervalSize(Base(net), Size(net));
    forall x: nat
      ensures x in Members(net) <==> In(x, net)
    {
      InIffInterval(x, net);
    }
  }

  lemma {:induction false} Pow2Split(a: nat, b: nat) returns (k: nat)
    requires a <= b
    ensures k > 0 && Pow2(b) == Pow2(a) * k
  {
    if a == b {
      k := 1;
    } else {
      var half := Pow2Split(a, b - 1);
      k := 2 * half;
    }
  }

  lemma MulAssociative(q: nat, n: nat, k: nat)
    ensures q * (n * k) == q * k * n
  {
  }

  lemma MulDistributive(a: nat, b: nat, n: nat)
    ensures (a + b) * n == a * n + b * n
  {
  }

  /** Dividing in two steps. */
  lemma DivDiv(x: nat, n: nat, k: nat, m: nat)
    requires n > 0 && k > 0 && m > 0 && m == n * k
    ensures Quotient(x, m) == Quotient(Quotient(x, n), k)
  {
    var y := Quotient(x, n);
    var q := Quotient(y, k);
    DivBounds(x, n);
    DivBounds(y, k);
    MulMonotone(q * k, y, n);
    MulMonotone(y + 1, q * k + k, n);
    MulDistributive(y, 1, n);
    MulDistributive(q * k, k, n);
    MulAssociative(q, n, k);
    DivUnique(x, m, q);
  }

  /** Two networks never overlap in part: the longer prefix lies inside the shorter or
      apart from it. */
  lemma NestedOrDisjoint(wide: Network, narrow: Network)
    requires wide.prefix <= narrow.prefix <= 32
    ensures (forall x: nat :: In(x, narrow) ==> In(x, wide)) || (forall x: nat :: In(x, narrow) ==> !In(x, wide))
    ensures (forall x: nat :: In(x, narrow) ==> In(x, wide)) <==> In(narrow.address, wide)
  {
    var n := Size(narrow);
    var k := Pow2Split(32 - narrow.prefix, 32 - wide.prefix);
    forall x: nat | In(x, narrow)
      ensures Quotient(x, Size(wide)) == Quotient(narrow.address, Size(wide))
    {
      DivDiv(x, n, k, Size(wide));
      DivDiv(narrow.address, n, k, Size(wide));
    }
    assert In(narrow.address, narrow);
  }

  // ---------------------------------------------------------------------------
  // Usable addresses
  // ---------------------------------------------------------------------------

  /** `_cidr_host_count`: 0 for a text that is no network. */
  function HostCount(cidr: string): nat {
    match ParseNetwork(cidr)
    case None => 0
    case Some(net) => if net.prefix >= 31 then Size(net) else if Size(net) >= 2 then Size(net) - 2 else 0
  }

  lemma {:induction false} Pow2AtLeast(n: nat)
    requires n >= 2
    ensures Pow2(n) >= 4
  {
    if n == 2 {
      assert Pow2(2) == 2 * Pow2(1) && Pow2(1) == 2 * Pow2(0);
    } else {
      Pow2AtLeast(n - 1);
    }
  }

  /** The host count is the number of members that are neither the network address nor the
      broadcast address; a /31 (section 2.1 of RFC 3021) and a /32 have no such addresses. */
  lemma HostCountMeaning(cidr: string)
    requires ParseNetwork(cidr).Some?
    ensures var net := ParseNetwork(cidr).value;
            HostCount(cidr) == if net.prefix <= 30 then |Members(net) - {Base(net), Base(net) + Size(net) - 1}|
                               else |Members(net)|
  {
    var net := ParseNetwork(cidr).value;
    MemberCount(net);
    if net.prefix <= 30 {
      Pow2AtLeast(32 - net.prefix);
      var ends := {Base(net), Base(net) + Size(net) - 1};
      assert ends <= Members(net) && |ends| == 2;
      assert |Members(net) - ends| == |Members(net)| - |ends|;
    }
  }
}
