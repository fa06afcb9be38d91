/**
 Address arithmetic: IPv4/IPv6 blocks (CIDR, section 3.1 of RFC 4632), the containment and
 overlap tests the validators use, and the smallest block covering several others.
 A block is a base address and a prefix length, the base being a multiple of the block's size.
 */
module Addressing {
  import opened Wrappers

  // ---------- Powers of two and multiples ----------

  function Pow2(n: nat): (r: nat)
    ensures r >= 1
  {
    if n == 0 then 1 else 2 * Pow2(n - 1)
  }

  lemma {:induction false} Pow2Divides(m: nat, n: nat)
    requires m <= n
    ensures Pow2(n) % Pow2(m) == 0
    decreases n - m
  {
    if m == n {
      ExactMultiple(1, Pow2(m));
    } else {
      Pow2Divides(m, n - 1);
      MultipleOfProduct(2, Pow2(n - 1), Pow2(m));
    }
  }

  lemma {:induction false} Pow2Grows(m: nat, n: nat)
    requires m < n
    ensures Pow2(m) < Pow2(n)
    decreases n - m
  {
    if m < n - 1 {
      Pow2Grows(m, n - 1);
    }
  }

  lemma {:induction false} Pow2Sum(m: nat, n: nat)
    ensures Pow2(m + n) == Pow2(m) * Pow2(n)
  {
    if m > 0 {
      Pow2Sum(m - 1, n);
      assert 2 * (Pow2(m - 1) * Pow2(n)) == (2 * Pow2(m - 1)) * Pow2(n);
    }
  }

  lemma Squared(n: nat, value: nat)
    requires Pow2(n) == value
    ensures Pow2(n + n) == value * value
  {
    Pow2Sum(n, n);
  }

  lemma WordIsFull()
    ensures Pow2(32) == 0x1_0000_0000
  {
    Squared(4, 16);
    Squared(8, 256);
    Squared(16, 65536);
  }

  lemma MultipleOfProduct(k: nat, x: nat, d: nat)
    requires d > 0 && x % d == 0
    ensures (k * x) % d == 0
  {
    var q := x / d;
    assert k * x == (k * q) * d;
    ExactMultiple(k * q, d);
  }

  lemma {:induction false} ExactMultiple(q: nat, d: nat)
    requires d > 0
    ensures (q * d) % d == 0 && (q * d) / d == q
  {
    QuotientUnique(q * d, d, q, 0);
  }

  lemma QuotientUnique(x: nat, d: nat, q: nat, r: nat)
    requires d > 0 && x == q * d + r && r < d
    ensures x / d == q && x % d == r
  {
    var p := x / d;
    var gap := q - p;
    assert x == p * d + x % d;
    assert gap * d == x % d - r;
    ProductMagnitude(gap, d);
  }

  lemma ProductMagnitude(k: int, d: nat)
    ensures k >= 1 ==> k * d >= d
    ensures k <= -1 ==> k * d + d <= 0
  {
  }

  lemma MultipleTransitive(x: nat, a: nat, b: nat)
    requires a > 0 && b > 0 && x % a == 0 && a % b == 0
    ensures x % b == 0
  {
    assert x == (x / a) * a;
    MultipleOfProduct(x / a, a, b);
  }

  /** Distinct multiples of `d` are at least `d` apart. */
  lemma MultiplesApart(x: nat, y: nat, d: nat)
    requires d > 0 && x % d == 0 && y % d == 0 && x < y
    ensures x + d <= y
  {
    var gap := y / d - x / d;
    assert y - x == gap * d;
    ProductMagnitude(gap, d);
  }

  /** The lowest `bits` bits of `n` are zero. */
  predicate Aligned(n: nat, bits: nat) {
    bits == 0 || (n % 2 == 0 && Aligned(n / 2, bits - 1))
  }

  lemma {:induction false} AlignedIffMultiple(n: nat, bits: nat)
    ensures Aligned(n, bits) <==> n % Pow2(bits) == 0
  {
    if bits == 0 {
      QuotientUnique(n, 1, n, 0);
    } else {
      AlignedIffMultiple(n / 2, bits - 1);
      HalvedRemainder(n, Pow2(bits - 1));
    }
  }

  lemma HalvedRemainder(n: nat, half: nat)
    requires half > 0
    ensures n % (2 * half) == 2 * ((n / 2) % half) + n % 2
  {
    var q, r := (n / 2) / half, (n / 2) % half;
    assert n / 2 == q * half + r;
    assert q * (2 * half) == 2 * (q * half);
    QuotientUnique(n, 2 * half, q, 2 * r + n % 2);
  }

  // ---------- Blocks ----------

  datatype Version = V4 | V6 {
    function Width(): nat {
      if V4? then 32 else 128
    }
  }

  /** Addresses have 32 or 128 bits. */
  lemma WidthsAre()
    ensures Pow2(V4.Width()) == 0x1_0000_0000
    ensures Pow2(V6.Width()) == 0x1_0000_0000_0000_0000_0000_0000_0000_0000
  {
    WordIsFull();
    Squared(32, 0x1_0000_0000);
    Squared(64, 0x1_0000_0000_0000_0000);
  }

  datatype Address = Address(version: Version, value: nat)

  datatype RawSubnet = RawSubnet(version: Version, base: nat, length: nat) {
    function Size(): nat
      requires length <= version.Width()
    {
      Pow2(version.Width() - length)
    }

    predicate Canonical() {
      && length <= version.Width()
      && Aligned(base, version.Width() - length)
      && base < Pow2(version.Width())
    }

    /** The highest address of the block, its broadcast address. */
    function Last(): nat
      requires length <= version.Width()
    {
      base + Size() - 1
    }

    predicate Contains(address: Address)
      requires length <= version.Width()
    {
      address.version == version && base <= address.value <= Last()
    }

    predicate IsSubnetOf(other: RawSubnet)
      requires length <= version.Width() && other.length <= other.version.Width()
    {
      version == other.version && other.base <= base && Last() <= other.Last()
    }

    predicate Overlaps(other: RawSubnet)
      requires length <= version.Width() && other.length <= other.version.Width()
    {
      && version == other.version
      && (|| Contains(Address(version, other.base))
          || Contains(Address(version, other.Last()))
          || other.Contains(Address(version, base))
          || other.Contains(Address(version, Last())))
    }

    function UsableHostCount(): nat
      requires length <= version.Width()
    {
      if version.Width() - length <= 1 then Size()
      else if Size() >= 2 then Size() - 2 else 0
    }
  }

  /** A subnet in canonical form: host bits are zero. */
  type SubnetSpec = s: RawSubnet | s.Canonical() witness RawSubnet(V4, 0, 32)

  const DEFAULT_ROUTE: SubnetSpec := AllIPv4()

  function AllIPv4(): (s: SubnetSpec)
    ensures s.version.V4? && s.length == 0 && s.base == 0
  {
    ZeroAligned(32);
    RawSubnet(V4, 0, 0)
  }

  lemma {:induction false} ZeroAligned(bits: nat)
    ensures Aligned(0, bits)
  {
    if bits > 0 {
      ZeroAligned(bits - 1);
    }
  }

  lemma BaseIsMultiple(s: SubnetSpec)
    ensures s.base % s.Size() == 0
  {
    AlignedIffMultiple(s.base, s.version.Width() - s.length);
  }

  /** Two blocks of one address family are nested or disjoint. */
  lemma Laminar(a: SubnetSpec, b: SubnetSpec)
    requires a.version == b.version && a.length <= b.length
    ensures b.IsSubnetOf(a) || b.Last() < a.base || a.Last() < b.base
  {
    var width := a.version.Width();
    BaseIsMultiple(a);
    BaseIsMultiple(b);
    Pow2Divides(width - b.length, width - a.length);
    MultipleTransitive(a.base, a.Size(), b.Size());
    if a.base <= b.base <= a.Last() {
      EndAligned(a.base, a.Size(), b.Size());
      MultiplesApart(b.base, a.base + a.Size(), b.Size());
    } else if b.base < a.base {
      MultiplesApart(b.base, a.base, b.Size());
    }
  }

  lemma EndAligned(base: nat, size: nat, d: nat)
    requires d > 0 && base % d == 0 && size % d == 0
    ensures (base + size) % d == 0
  {
    assert base == (base / d) * d && size == (size / d) * d;
    assert base + size == (base / d + size / d) * d;
    ExactMultiple(base / d + size / d, d);
  }

  /** `Overlaps` compares four end points; it holds exactly when one block contains the other,
      and exactly when some address lies in both. */
  lemma OverlapsIffNested(a: SubnetSpec, b: SubnetSpec)
    ensures a.Overlaps(b) <==> a.IsSubnetOf(b) || b.IsSubnetOf(a)
    ensures a.Overlaps(b) <==> exists x: Address :: a.Contains(x) && b.Contains(x)
  {
    if a.version == b.version {
      if a.length <= b.length {
        Laminar(a, b);
      } else {
        Laminar(b, a);
      }
      if a.IsSubnetOf(b) {
        assert a.Contains(Address(a.version, a.base)) && b.Contains(Address(a.version, a.base));
      }
      if b.IsSubnetOf(a) {
        assert a.Contains(Address(a.version, b.base)) && b.Contains(Address(a.version, b.base));
      }
    }
  }

  /** Containment of blocks is containment of their addresses. */
  lemma SubnetOfIffAddresses(a: SubnetSpec, b: SubnetSpec)
    ensures a.IsSubnetOf(b) <==> forall x: Address :: a.Contains(x) ==> b.Contains(x)
  {
    assert a.Contains(Address(a.version, a.base)) && a.Contains(Address(a.version, a.Last()));
    if forall x: Address :: a.Contains(x) ==> b.Contains(x) {
      assert b.Contains(Address(a.version, a.base)) && b.Contains(Address(a.version, a.Last()));
    }
  }

  lemma MutualSubnetsEqual(a: RawSubnet, b: RawSubnet)
    requires a.length <= a.version.Width() && b.length <= b.version.Width()
    requires a.IsSubnetOf(b) && b.IsSubnetOf(a)
    ensures a == b
  {
    var width := a.version.Width();
    if a.length < b.length {
      Pow2Grows(width - b.length, width - a.length);
    } else if b.length < a.length {
      Pow2Grows(width - a.length, width - b.length);
    }
  }

  lemma ShorterOfContaining(a: RawSubnet, b: RawSubnet)
    requires a.length <= a.version.Width() && b.length <= b.version.Width()
    requires a.IsSubnetOf(b)
    ensures b.length <= a.length
  {
    if a.length < b.length {
      Pow2Grows(a.version.Width() - b.length, a.version.Width() - a.length);
    }
  }

  // ---------- Host addresses ----------

  /** An address with the prefix it lives on, when that is known. */
  datatype RawAddressSpec = RawAddressSpec(address: Address, prefixLength: Option<nat>) {
    predicate Valid() {
      && address.value < Pow2(address.version.Width())
      && (prefixLength.Some? ==> prefixLength.value <= address.version.Width())
    }

    /** The subnet an address lies on: the host bits cleared. */
    function Subnet(): (s: Option<SubnetSpec>)
      requires Valid()
      ensures s.Some? <==> prefixLength.Some?
      ensures s.Some? ==> s.value.Contains(address) && s.value.length == prefixLength.value
    {
      if prefixLength.None? then None
      else Some(NetworkOf(address, prefixLength.value))
    }
  }

  type IPAddressSpec = a: RawAddressSpec | a.Valid()
    witness RawAddressSpec(Address(V4, 0), None)

  function NetworkOf(address: Address, length: nat): (s: SubnetSpec)
    requires address.value < Pow2(address.version.Width()) && length <= address.version.Width()
    ensures s.length == length && s.Contains(address)
  {
    var size := Pow2(address.version.Width() - length);
    RoundedDown(address.value, size);
    AlignedIffMultiple(address.value / size * size, address.version.Width() - length);
    RawSubnet(address.version, address.value / size * size, length)
  }

  lemma RoundedDown(x: nat, d: nat)
    requires d > 0
    ensures 0 <= x / d * d <= x < x / d * d + d && (x / d * d) % d == 0
  {
    ExactMultiple(x / d, d);
  }

  /** The only canonical block of that length holding the address. */
  lemma NetworkOfUnique(address: Address, s: SubnetSpec)
    requires address.value < Pow2(address.version.Width()) && s.Contains(address)
    ensures NetworkOf(address, s.length) == s
  {
    var n := NetworkOf(address, s.length);
    Laminar(n, s);
    Laminar(s, n);
    MutualSubnetsEqual(n, s);
  }

  // ---------- The covering block ----------

  /** The block one bit shorter. */
  function Supernet(s: SubnetSpec): (r: SubnetSpec)
    requires s.length > 0
    ensures r.version == s.version && r.length == s.length - 1
    ensures s.IsSubnetOf(r)
  {
    var r := NetworkOf(Address(s.version, s.base), s.length - 1);
    Laminar(r, s);
    r
  }

  /** Nothing fits strictly between a block and its supernet. */
  lemma SupernetLeast(s: SubnetSpec, d: SubnetSpec)
    requires s.length > 0 && s.IsSubnetOf(d) && s != d
    ensures Supernet(s).IsSubnetOf(d)
  {
    ShorterOfContaining(s, d);
    if d.length == s.length {
      Laminar(s, d);
      MutualSubnetsEqual(s, d);
    }
    Laminar(d, Supernet(s));
  }

  predicate CoversIPv4(cover: SubnetSpec, subnets: seq<SubnetSpec>) {
    cover.version.V4? && forall s <- subnets :: s.version.V4? ==> s.IsSubnetOf(cover)
  }

  ghost predicate IsLeastCover(cover: SubnetSpec, subnets: seq<SubnetSpec>) {
    && CoversIPv4(cover, subnets)
    && forall d: SubnetSpec :: CoversIPv4(d, subnets) ==> cover.IsSubnetOf(d)
  }

  predicate HasIPv4(subnets: seq<SubnetSpec>) {
    exists s :: s in subnets && s.version.V4?
  }

  lemma LeastCoverUnique(c: SubnetSpec, d: SubnetSpec, xs: seq<SubnetSpec>, ys: seq<SubnetSpec>)
    requires IsLeastCover(c, xs) && IsLeastCover(d, ys)
    requires forall s: SubnetSpec :: s in xs <==> s in ys
    ensures c == d
  {
    assert CoversIPv4(d, xs) && CoversIPv4(c, ys);
    MutualSubnetsEqual(c, d);
  }

  function IPv4Only(subnets: seq<SubnetSpec>): (r: seq<SubnetSpec>)
    ensures forall s: SubnetSpec :: s in r <==> s in subnets && s.version.V4?
  {
    if subnets == [] then []
    else
      var rest := IPv4Only(subnets[1..]);
      assert forall s: SubnetSpec :: s in subnets <==> s == subnets[0] || s in subnets[1..];
      if subnets[0].version.V4? then [subnets[0]] + rest else rest
  }

  /** The smallest prefix covering every IPv4 subnet, whatever the order of the input;
      nothing when there is none. The block is widened one bit at a time. */
  method CoveringSupernet(subnets: seq<SubnetSpec>) returns (cover: Option<SubnetSpec>)
    ensures cover.Some? <==> HasIPv4(subnets)
    ensures cover.Some? ==> IsLeastCover(cover.value, subnets)
  {
    var ipv4 := IPv4Only(subnets);
    if ipv4 == [] {
      return None;
    }
    assert ipv4[0] in ipv4;
    var current := ipv4[0];
    var i := 1;
    while i < |ipv4|
      invariant 1 <= i <= |ipv4|
      invariant current.version.V4? && AllInside(ipv4[..i], current) && InsideEveryCover(current, subnets)
    {
      var network := ipv4[i];
      assert network in ipv4;
      while !(network.IsSubnetOf(current) || network == current)
        invariant current.version.V4? && AllInside(ipv4[..i], current) && InsideEveryCover(current, subnets)
        decreases current.length
      {
        if current.length == 0 {
          EverythingInZeroPrefix(network, current);
          break;
        }
        WidenInsideCovers(current, network, subnets);
        current := Supernet(current);
      }
      assert ipv4[..i + 1] == ipv4[..i] + [network];
      i := i + 1;
    }
    assert ipv4[..i] == ipv4;
    return Some(current);
  }

  predicate AllInside(xs: seq<SubnetSpec>, s: SubnetSpec) {
    forall x <- xs :: x.IsSubnetOf(s)
  }

  ghost predicate InsideEveryCover(s: SubnetSpec, subnets: seq<SubnetSpec>) {
    forall d: SubnetSpec :: CoversIPv4(d, subnets) ==> s.IsSubnetOf(d)
  }

  /** While some block is not covered yet, widening by one bit stays inside every cover. */
  lemma WidenInsideCovers(current: SubnetSpec, network: SubnetSpec, subnets: seq<SubnetSpec>)
    requires current.length > 0 && InsideEveryCover(current, subnets)
    requires network in subnets && network.version.V4? && !network.IsSubnetOf(current)
    ensures InsideEveryCover(Supernet(current), subnets)
  {
    forall d: SubnetSpec | CoversIPv4(d, subnets) ensures Supernet(current).IsSubnetOf(d) {
      SupernetLeast(current, d);
    }
  }

  lemma EverythingInZeroPrefix(s: SubnetSpec, all: SubnetSpec)
    requires s.version == all.version && all.length == 0
    ensures s.IsSubnetOf(all)
  {
    Laminar(all, s);
    BaseIsMultiple(all);
    if all.base > 0 {
      ExactMultiple(0, all.Size());
      MultiplesApart(0, all.base, all.Size());
    }
  }
}
