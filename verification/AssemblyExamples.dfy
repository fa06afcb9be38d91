/**
 Small networks that are assembled and accepted, and that the validators then report: the disagreements
 between the assembler and the validators are not hypothetical.
 */
module AssemblyExamples {
  import opened Wrappers
  import opened Decimal
  import opened Framing
  import opened Text
  import opened Addressing
  import opened NetworkModel
  import opened CloudModel
  import opened CloudValidators
  import opened Segments
  import opened CloudAssembler
  import opened AssemblyFacts
  import opened SegmentMembers
  import opened AssemblerTheorems
  import opened AssemblyAccepted
  import opened RouteTheorems
  import opened Slugs

  // ---------- Sizes ----------

  lemma {:induction false} NetworkCount(arch: NetworkArchitecture, domains: seq<Domain>, covers: seq<Cover>, names: Names)
    requires |covers| == |domains|
    ensures |NetworksOf(arch, domains, covers, names)| <= |domains|
  {
    if domains != [] {
      var last := |domains| - 1;
      NetworkCount(arch, domains[..last], covers[..last], names);
    }
  }

  lemma {:induction false} InstanceCount(t: Translation, nodes: seq<Node>, subnets: seq<Subnet>, groupIds: seq<string>)
    ensures |InstancesOf(t.arch, nodes, t.plan, t.segments, subnets, groupIds, t.names)| <= |nodes|
  {
    if nodes != [] {
      InstanceCount(t, nodes[..|nodes| - 1], subnets, groupIds);
    }
  }

  lemma GroupCount(t: Translation)
    requires t.Valid()
    ensures |t.Groups()| <= FirewallCount(t.arch.nodes)
  {
    if t.Networks() != [] {
      GroupsAreFirewalls(t.arch.nodes, t.plan, t.Networks()[0].id, t.names, SecurityGroup("", "", []));
    }
  }

  lemma {:induction false} NoFirewalls(nodes: seq<Node>)
    requires forall n <- nodes :: !n.kind.Firewall?
    ensures FirewallCount(nodes) == 0
  {
    if nodes != [] {
      NoFirewalls(nodes[..|nodes| - 1]);
    }
  }

  /** A single host that is no forwarder: one domain, at most one of everything that is named. */
  predicate IsLone(t: Translation, host: Node) {
    t.arch.nodes == [host] && host.kind.Pc?
  }

  lemma LoneRouters(host: Node)
    requires !host.IsL3Forwarder()
    ensures Routers([host]) == []
  {
    assert ForwarderIds([host][..0]) == [];
    assert ForwarderIds([host]) == [] && |Routers([host])| == |multiset(Routers([host]))|;
  }

  lemma LoneSlugsApart(t: Translation, host: Node)
    requires t.Valid() && IsLone(t, host)
    ensures SlugsApart(t)
  {
    LoneNetwork(t, host);
    InstanceCount(t, t.arch.nodes, t.Subnets(), CloudAssembler.GroupIds(t.Groups()));
    LoneGroups(t, host);
  }

  lemma LoneNetwork(t: Translation, host: Node)
    requires t.Valid() && IsLone(t, host)
    ensures |NetworkIds(t.Networks())| <= 1
  {
    LoneRouters(host);
    NetworkCount(t.arch, t.domains, t.covers, t.names);
  }

  lemma LoneGroups(t: Translation, host: Node)
    requires t.Valid() && IsLone(t, host)
    ensures |FirewallIds(t.Groups())| == 0
  {
    GroupCount(t);
    NoFirewalls(t.arch.nodes);
  }

  lemma SegmentHasInterface(t: Translation, v: SegmentView) returns (i: Interface)
    requires t.Valid() && v in t.segments
    ensures i in t.arch.interfaces && IsOn(i, v.subnet)
  {
    var k :| 0 <= k < |t.segments| && t.segments[k] == v;
    assert HasSubnet(t.found, t.found[k].subnet);
    i :| i in t.arch.interfaces && IsOn(i, v.subnet);
  }

  lemma LoneSegment(t: Translation, host: Node, v: SegmentView)
    requires t.Valid() && IsLone(t, host) && v in t.segments && v.subnet.version.V4?
    ensures Placed(t, v, 0) && t.domains[0].segments == t.segments
  {
    LoneRouters(host);
    DomainAt(t, 0);
    CoverAt(t.covers, t.domains, 0);
    var j :| 0 <= j < |t.segments| && t.segments[j] == v;
    assert SubnetsIn(t.segments)[j] == v.subnet;
  }

  // ---------- An address outside its subnet ----------

  /** A network of one host whose only interface strays is accepted and then reported, whatever the
      plan says of its gateways and whatever the names. */
  lemma LoneHostReported(t: Translation, issues: seq<Issue>, host: Node, i: Interface)
    requires t.Valid() && IsLone(t, host) && t.arch.interfaces == [i] && i.nodeId == host.id
    requires t.plan.entries == map[] && StraysFromSubnet(i) && i.FirstSubnet().value.version.V4?
    requires PlacementReport(issues, t.Infra())
    ensures Accepted(t) && NamesApart(t)
    ensures exists issue <- issues :: issue.AddressOutsideSubnet?
  {
    LoneHostAccepted(t, host, i);
    var v := InterfaceInOneSegment(t, i);
    LoneSegment(t, host, v);
    PlacementWhen(t, i, v, 0);
    PlacementExactly(t, i);
    StrayingReported(t, issues, host, i);
  }

  lemma LoneHostAccepted(t: Translation, host: Node, i: Interface)
    requires t.Valid() && IsLone(t, host) && t.arch.interfaces == [i]
    ensures Accepted(t) && NamesApart(t)
  {
    forall v, w | v in t.segments && w in t.segments ensures v.subnet == w.subnet {
      var a := SegmentHasInterface(t, v);
      var b := SegmentHasInterface(t, w);
    }
    LoneSlugsApart(t, host);
    AcceptedIffSlugsApart(t);
  }

  function IPv4(value: nat, prefix: Option<nat>): IPAddressSpec
    requires value < 0x1_0000_0000 && (prefix.Some? ==> prefix.value <= 32)
  {
    WordIsFull();
    RawAddressSpec(Address(V4, value), prefix)
  }

  const HOST: Node := Node("h", Pc, "h")

  /** An interface with 10.0.1.5, whose prefix is not known, and then 10.0.0.5/24. */
  function Uplink(): Interface {
    Interface("h-eth0", "h", "eth0", [IPv4(0x0A000105, None), IPv4(0x0A000005, Some(24))], None)
  }

  lemma UplinkStrays()
    ensures StraysFromSubnet(Uplink()) && Uplink().FirstSubnet().value.version.V4?
  {
    var second := IPv4(0x0A000005, Some(24));
    assert Pow2(8) == 256;
    assert FirstSubnetOf([second]) == second.Subnet();
    assert Uplink().addresses[1..] == [second];
  }

  const PLAIN: Plan := Plan(false, false, false, false, map[], map[])

  lemma LoneWellFormed(interfaces: seq<Interface>)
    requires forall i <- interfaces :: i.nodeId == HOST.id
    requires forall j, k :: 0 <= j < k < |interfaces| ==> interfaces[j].id != interfaces[k].id
    ensures NetworkArchitecture([HOST], interfaces, []).WellFormed()
  {
    assert FirstNode([HOST], HOST.id) == Some(HOST);
  }

  /** Assembling the host with that uplink gives an accepted architecture with a misplaced address. */
  method AssembleUplink(names: Names) returns (cloud: CloudArchitecture, issues: seq<Issue>)
    ensures PlacementReport(issues, cloud.infra)
    ensures exists issue <- issues :: issue.AddressOutsideSubnet?
  {
    LoneWellFormed([Uplink()]);
    UplinkStrays();
    var assembled, t := Assemble(PLAIN, NetworkArchitecture([HOST], [Uplink()], []), names);
    LoneHostAccepted(t, HOST, Uplink());
    cloud := assembled.value;
    issues := ValidateComputePlacement(cloud.infra);
    LoneHostReported(t, issues, HOST, Uplink());
  }

  // ---------- Names ----------

  /** The program's slugs. The only IPv6 block here is fd00::/64. */
  function Slugged(): Names {
    Names((s: SubnetSpec) => if s.version.V4? then Slugify(CidrText(s)) else "fd00-64", (s: string) => Slugify(s))
  }

  lemma SluggedUsesSlugs()
    ensures UsesSlugs(Slugged())
  {
  }

  lemma IPv4SlugStart(s: SubnetSpec)
    requires s.version.V4?
    ensures Slugify(CidrText(s)) != "fd00-64"
  {
    var f := Fields(s);
    CidrSlug(s);
    FiveJoined(f);
    DigitsAreSlug(s.base / 256 / 256 / 256);
    DigitsParse(s.base / 256 / 256 / 256);
    assert f[0][0] in f[0];
    assert Joined(f, DASH)[0] == f[0][0];
  }

  /** A short word of slug characters is its own slug. */
  lemma WordIsSlug(w: string)
    requires 0 < |w| <= MAX_LENGTH && AllKept(w, IsSlugChar)
    ensures Slugify(w) == w
  {
    assert Lower(w) == w;
    CollapseWord(w, "", IsSlugChar, DASH);
    assert w + "" == w && Collapse("", IsSlugChar, DASH) == "";
    EndsUntouched(w);
  }

  // ---------- A subnet outside its network ----------

  function Lan4(): Interface {
    Interface("h-eth0", "h", "eth0", [IPv4(0x0A000005, Some(24))], None)
  }

  lemma LocalPrefixFits()
    ensures 0xFD00 * Pow2(112) + 5 < Pow2(128)
  {
    Squared(4, 16);
    Squared(8, 256);
    Pow2Sum(16, 112);
    Pow2Grows(4, 112);
  }

  /** fd00::5/64. */
  function Lan6Address(): IPAddressSpec {
    LocalPrefixFits();
    RawAddressSpec(Address(V6, 0xFD00 * Pow2(112) + 5), Some(64))
  }

  function Lan6(): Interface {
    Interface("h-eth1", "h", "eth1", [Lan6Address()], None)
  }

  /** Both interfaces have a subnet, one of each family. */
  predicate IsDual(i: Interface, j: Interface) {
    && i.FirstSubnet().Some? && j.FirstSubnet().Some?
    && i.FirstSubnet().value.version.V4? && j.FirstSubnet().value.version.V6?
  }

  lemma FamiliesApart(a: SubnetSpec, b: SubnetSpec)
    requires a.version.V4? && b.version.V6?
    ensures Slugged().cidrSlug(a) != Slugged().cidrSlug(b)
  {
    IPv4SlugStart(a);
  }

  lemma OneOfTwo(t: Translation, v: SegmentView, i: Interface, j: Interface)
    requires t.Valid() && t.arch.interfaces == [i, j] && IsDual(i, j) && v in t.segments
    ensures v.subnet == i.FirstSubnet().value || v.subnet == j.FirstSubnet().value
  {
    var own := SegmentHasInterface(t, v);
  }

  lemma MixedNamesApart(t: Translation, i: Interface, j: Interface)
    requires t.Valid() && t.arch.interfaces == [i, j] && IsDual(i, j) && t.names == Slugged()
    ensures NamesApart(t)
  {
    FamiliesApart(i.FirstSubnet().value, j.FirstSubnet().value);
    forall v, w | v in t.segments && w in t.segments && t.names.cidrSlug(v.subnet) == t.names.cidrSlug(w.subnet)
      ensures v.subnet == w.subnet
    {
      OneOfTwo(t, v, i, j);
      OneOfTwo(t, w, i, j);
    }
  }

  /** A host on an IPv4 and an IPv6 subnet: accepted, one domain with both. */
  lemma DualHostMixed(t: Translation, host: Node, i: Interface, j: Interface)
    requires t.Valid() && IsLone(t, host) && t.arch.interfaces == [i, j] && IsDual(i, j) && t.names == Slugged()
    ensures Accepted(t) && exists d <- t.domains :: IsMixed(d)
  {
    MixedNamesApart(t, i, j);
    LoneSlugsApart(t, host);
    AcceptedIffSlugsApart(t);
    var v := InterfaceInOneSegment(t, i);
    var w := InterfaceInOneSegment(t, j);
    LoneSegment(t, host, v);
    SegmentsMixed(t.domains[0], v, w);
    assert t.domains[0] in t.domains;
  }

  lemma SegmentsMixed(d: Domain, v: SegmentView, w: SegmentView)
    requires v in d.segments && w in d.segments && v.subnet.version.V4? && w.subnet.version.V6?
    ensures IsMixed(d)
  {
    var j :| 0 <= j < |d.segments| && d.segments[j] == v;
    assert SubnetsIn(d.segments)[j] == v.subnet;
  }

  lemma LansAreDual()
    ensures IsDual(Lan4(), Lan6())
  {
    assert FirstSubnetOf(Lan4().addresses) == Lan4().addresses[0].Subnet();
    assert FirstSubnetOf(Lan6().addresses) == Lan6().addresses[0].Subnet();
  }

  /** Assembling the host gives an accepted architecture with a subnet outside its network. */
  method AssembleDualHost() returns (cloud: CloudArchitecture, issues: seq<Issue>)
    ensures SubnetReport(issues, cloud.infra)
    ensures exists issue <- issues :: issue.SubnetOutsideNetwork?
  {
    var arch := NetworkArchitecture([HOST], [Lan4(), Lan6()], []);
    assert Lan4().id[5] == '0' && Lan6().id[5] == '1';
    LoneWellFormed([Lan4(), Lan6()]);
    LansAreDual();
    var assembled, t := Assemble(PLAIN, arch, Slugged());
    DualHostMixed(t, HOST, Lan4(), Lan6());
    cloud := assembled.value;
    issues := ValidateSubnets(cloud.infra);
    SubnetsStayInside(t, issues);
  }

  // ---------- Two routes to one destination ----------

  /** Two routers, each with one interface on a subnet of its own. */
  predicate IsPair(arch: NetworkArchitecture, a: Node, b: Node, i: Interface, j: Interface) {
    && arch == NetworkArchitecture([a, b], [i, j], []) && a.kind.Router? && b.kind.Router? && a.id != b.id
    && i.nodeId == a.id && j.nodeId == b.id && i.FirstSubnet().Some? && j.FirstSubnet().Some?
    && i.FirstSubnet().value != j.FirstSubnet().value
    && i.FirstSubnet().value.version.V4? && j.FirstSubnet().value.version.V4?
  }

  lemma PairForwarders(a: Node, b: Node)
    requires a.kind.Router? && b.kind.Router?
    ensures ForwarderIds([a, b]) == [a.id, b.id]
  {
    assert [a, b][..1] == [a] && [a][..0] == [];
    assert ForwarderIds([a]) == [a.id];
  }

  lemma TwoInSomeOrder(r: seq<string>, x: string, y: string)
    requires multiset(r) == multiset([x, y])
    ensures r == [x, y] || r == [y, x]
  {
    assert |r| == |multiset(r)| && |multiset([x, y])| == 2;
    assert r == [r[0], r[1]];
    assert multiset(r) == multiset{r[0], r[1]} && multiset([x, y]) == multiset{x, y};
    assert r[0] in multiset{x, y} && r[1] in multiset{x, y} && x in multiset{r[0], r[1]} && y in multiset{r[0], r[1]};
  }

  lemma PairRouters(a: Node, b: Node)
    requires a.kind.Router? && b.kind.Router?
    ensures Routers([a, b]) == [a.id, b.id] || Routers([a, b]) == [b.id, a.id]
  {
    PairForwarders(a, b);
    TwoInSomeOrder(Routers([a, b]), a.id, b.id);
  }

  /** Without switches a node is on a segment only by an interface. */
  lemma OnlyByInterface(t: Translation, v: SegmentView, id: string)
    requires t.Valid() && v in t.segments && id in v.nodeIds && forall n <- t.arch.nodes :: !n.IsL2()
    ensures exists i <- t.arch.interfaces :: IsOn(i, v.subnet) && i.nodeId == id
  {
    SegmentIs(t, v);
    var group := GroupOf(t.arch.interfaces, v.subnet, t.names);
    if id !in group.nodeIds {
      JoinersAreSwitches(group, t.arch.nodes, t.arch.edges, id);
    }
    GroupNodeFrom(t.arch.interfaces, v.subnet, t.names, id);
  }

  lemma PairSegment(t: Translation, a: Node, b: Node, i: Interface, j: Interface, own: Interface)
    returns (v: SegmentView)
    requires t.Valid() && IsPair(t.arch, a, b, i, j) && (own == i || own == j)
    ensures v in t.segments && v.subnet.version.V4? && own.nodeId in v.nodeIds
    ensures forall id <- v.nodeIds :: id == own.nodeId
  {
    v := InterfaceInOneSegment(t, own);
    forall id | id in v.nodeIds ensures id == own.nodeId {
      PairMember(t, a, b, i, j, own, v, id);
    }
  }

  lemma PairMember(t: Translation, a: Node, b: Node, i: Interface, j: Interface, own: Interface, v: SegmentView, id: string)
    requires t.Valid() && IsPair(t.arch, a, b, i, j) && (own == i || own == j)
    requires v in t.segments && v.subnet == own.FirstSubnet().value && id in v.nodeIds
    ensures id == own.nodeId
  {
    OnlyByInterface(t, v, id);
  }

  lemma OwnedAlone(nodeIds: set<string>, router: string, routers: seq<string>)
    requires router in routers && router in nodeIds && forall id <- nodeIds :: id == router
    ensures OwnedBy(nodeIds, router, routers)
  {
    assert Owners(nodeIds, routers) == {router};
  }

  /** The domain of each router has a block. */
  lemma PairOwner(t: Translation, a: Node, b: Node, i: Interface, j: Interface, own: Interface, k: nat)
    requires t.Valid() && IsPair(t.arch, a, b, i, j) && (own == i || own == j)
    requires k < |Routers(t.arch.nodes)| && Routers(t.arch.nodes)[k] == own.nodeId
    ensures k < |t.domains| && t.covers[k].Some? && t.domains[k].routerId == own.nodeId
  {
    var v := PairSegment(t, a, b, i, j, own);
    OwnedAlone(v.nodeIds, own.nodeId, Routers(t.arch.nodes));
    InDomain(t, k, v);
    DomainAt(t, k);
    BlockFor(t, k, v);
  }

  lemma BlockFor(t: Translation, k: nat, v: SegmentView)
    requires t.Valid() && k < |t.domains| && v in t.domains[k].segments && v.subnet.version.V4?
    ensures t.covers[k].Some?
  {
    CoverAt(t.covers, t.domains, k);
    var m :| 0 <= m < |t.domains[k].segments| && t.domains[k].segments[m] == v;
    assert SubnetsIn(t.domains[k].segments)[m] == v.subnet;
  }

  lemma TwoNetworks(t: Translation)
    requires t.Valid() && |t.domains| == 2 && t.covers[0].Some? && t.covers[1].Some?
    ensures NetworkIds(t.Networks())
            == [NetworkId(t.arch, t.domains[0].routerId, t.names), NetworkId(t.arch, t.domains[1].routerId, t.names)]
  {
    var d, c := t.domains, t.covers;
    assert NetworksOf(t.arch, d[..1][..0], c[..1][..0], t.names) == [];
    assert NetworksOf(t.arch, d[..1], c[..1], t.names) == [NetworkFor(t.arch, d[0].routerId, c[0].value, t.names)];
    assert t.Networks() == [NetworkFor(t.arch, d[0].routerId, c[0].value, t.names),
                            NetworkFor(t.arch, d[1].routerId, c[1].value, t.names)];
  }

  lemma PairNetworks(t: Translation, a: Node, b: Node, i: Interface, j: Interface)
    requires t.Valid() && IsPair(t.arch, a, b, i, j) && t.names.slug(a.displayName) != t.names.slug(b.displayName)
    ensures |t.Networks()| == 2 && AllDistinct(NetworkIds(t.Networks()))
  {
    PairDomains(t, a, b, i, j);
    TwoNetworks(t);
    PairNames(t.arch, a, b, t.names);
  }

  lemma PairDomains(t: Translation, a: Node, b: Node, i: Interface, j: Interface)
    requires t.Valid() && IsPair(t.arch, a, b, i, j)
    ensures |t.domains| == 2 && t.covers[0].Some? && t.covers[1].Some?
    ensures multiset{t.domains[0].routerId, t.domains[1].routerId} == multiset{a.id, b.id}
  {
    PairRouters(a, b);
    var first := if Routers([a, b])[0] == a.id then i else j;
    var second := if first == i then j else i;
    PairOwner(t, a, b, i, j, first, 0);
    PairOwner(t, a, b, i, j, second, 1);
  }

  lemma PairNames(arch: NetworkArchitecture, a: Node, b: Node, names: Names)
    requires arch.nodes == [a, b] && a.id != b.id && names.slug(a.displayName) != names.slug(b.displayName)
    ensures NetworkId(arch, a.id, names) != NetworkId(arch, b.id, names)
  {
    assert arch.NodeById(a.id) == Some(a);
    assert arch.nodes[1..] == [b] && FirstNode([b], b.id) == Some(b);
    assert arch.NodeById(b.id) == Some(b);
    SameAfter("vpc-", names.slug(a.displayName), names.slug(b.displayName));
  }

  /** The instances of these nodes of the architecture. */
  function FirstInstances(t: Translation, nodes: seq<Node>): seq<ComputeInstance>
    requires |t.covers| == |t.domains|
  {
    InstancesOf(t.arch, nodes, t.plan, t.segments, t.Subnets(), CloudAssembler.GroupIds(t.Groups()), t.names)
  }

  lemma InstancesStep(t: Translation, nodes: seq<Node>) returns (own: seq<ComputeInstance>)
    requires |t.covers| == |t.domains| && nodes != []
    ensures FirstInstances(t, nodes) == FirstInstances(t, nodes[..|nodes| - 1]) + own
    ensures |own| <= 1 && forall c <- own :: c.id == "c-" + t.names.slug(nodes[|nodes| - 1].id)
  {
    own := NodeInstances(t.arch, nodes[|nodes| - 1], t.plan, t.segments, t.Subnets(), CloudAssembler.GroupIds(t.Groups()),
                         t.names);
  }

  lemma InstanceIdsConcat(a: seq<ComputeInstance>, b: seq<ComputeInstance>)
    ensures InstanceIds(a + b) == InstanceIds(a) + InstanceIds(b)
  {
  }

  lemma {:induction false} InstancesApart(t: Translation, nodes: seq<Node>)
    requires t.Valid()
    requires forall j, k :: 0 <= j < k < |nodes| ==> t.names.slug(nodes[j].id) != t.names.slug(nodes[k].id)
    ensures AllDistinct(InstanceIds(FirstInstances(t, nodes)))
  {
    if nodes != [] {
      var before := FirstInstances(t, nodes[..|nodes| - 1]);
      var own := InstancesStep(t, nodes);
      InstancesApart(t, nodes[..|nodes| - 1]);
      forall id | id in InstanceIds(before) ensures id !in InstanceIds(own) {
        EarlierInstance(t, nodes, id);
      }
      InstanceIdsConcat(before, own);
      ApartConcat(InstanceIds(before), InstanceIds(own));
    }
  }

  lemma EarlierInstance(t: Translation, nodes: seq<Node>, id: string)
    requires t.Valid() && nodes != []
    requires forall j, k :: 0 <= j < k < |nodes| ==> t.names.slug(nodes[j].id) != t.names.slug(nodes[k].id)
    requires id in InstanceIds(FirstInstances(t, nodes[..|nodes| - 1]))
    ensures id != "c-" + t.names.slug(nodes[|nodes| - 1].id)
  {
    var front := nodes[..|nodes| - 1];
    var before := FirstInstances(t, front);
    var k :| 0 <= k < |before| && InstanceIds(before)[k] == id;
    var node := InstanceFrom(t, front, before[k]);
    var m :| 0 <= m < |front| && front[m] == node;
    assert nodes[m] == node;
    SameAfter("c-", t.names.slug(node.id), t.names.slug(nodes[|nodes| - 1].id));
  }

  lemma PairInstances(t: Translation, a: Node, b: Node)
    requires t.Valid() && t.arch.nodes == [a, b] && t.names.slug(a.id) != t.names.slug(b.id)
    ensures AllDistinct(InstanceIds(t.Instances()))
  {
    InstancesApart(t, t.arch.nodes);
  }

  lemma PairNoGroups(t: Translation, a: Node, b: Node)
    requires t.Valid() && t.arch.nodes == [a, b] && a.kind.Router? && b.kind.Router?
    ensures t.Groups() == []
  {
    GroupCount(t);
    NoFirewalls(t.arch.nodes);
  }

  lemma PairAccepted(t: Translation, a: Node, b: Node, i: Interface, j: Interface)
    requires t.Valid() && IsPair(t.arch, a, b, i, j) && IsIPv4(t.arch) && UsesSlugs(t.names)
    requires t.names.slug(a.displayName) != t.names.slug(b.displayName) && t.names.slug(a.id) != t.names.slug(b.id)
    ensures Accepted(t) && |t.Networks()| == 2
  {
    IPv4NamesApart(t);
    PairNetworks(t, a, b, i, j);
    PairInstances(t, a, b);
    PairNoGroups(t, a, b);
    AcceptedIffSlugsApart(t);
  }

  /** With peering and a transit gateway, two routers with a subnet each give repeated destinations. */
  lemma PairReported(t: Translation, issues: seq<Issue>, a: Node, b: Node, i: Interface, j: Interface)
    requires t.Valid() && IsPair(t.arch, a, b, i, j) && IsIPv4(t.arch) && UsesSlugs(t.names)
    requires t.names.slug(a.displayName) != t.names.slug(b.displayName) && t.names.slug(a.id) != t.names.slug(b.id)
    requires t.plan.wantsPeering && t.plan.wantsTransit && RouteReport(issues, t.Infra())
    ensures Accepted(t) && exists issue <- issues :: issue.DuplicateRouteDestination?
  {
    PairAccepted(t, a, b, i, j);
    RoutesAcceptedIff(t, issues);
    OnlyRepeatedDestinations(t, issues);
    assert issues != [] ==> issues[0] in issues;
  }

  function West(): Interface {
    Interface("w-eth0", "w", "eth0", [IPv4(0x0A000001, Some(24))], None)
  }

  function East(): Interface {
    Interface("e-eth0", "e", "eth0", [IPv4(0x0A010001, Some(24))], None)
  }

  function Pair(): NetworkArchitecture {
    NetworkArchitecture([Node("w", Router, "west"), Node("e", Router, "east")], [West(), East()], [])
  }

  lemma SitesApart()
    ensures West().FirstSubnet().Some? && East().FirstSubnet().Some?
    ensures West().FirstSubnet().value != East().FirstSubnet().value
    ensures West().FirstSubnet().value.version.V4? && East().FirstSubnet().value.version.V4?
  {
    var w, e := West().addresses[0], East().addresses[0];
    assert FirstSubnetOf(West().addresses) == w.Subnet() && FirstSubnetOf(East().addresses) == e.Subnet();
    assert Pow2(8) == 256;
    assert w.Subnet().value.base == 0x0A000000 && e.Subnet().value.base == 0x0A010000;
  }

  lemma PairIsPair()
    ensures var nodes := Pair().nodes; IsPair(Pair(), nodes[0], nodes[1], West(), East())
    ensures Pair().WellFormed() && IsIPv4(Pair())
  {
    SitesApart();
    var nodes := Pair().nodes;
    assert "w"[0] == 'w' && "e"[0] == 'e' && "w-eth0"[0] == 'w' && "e-eth0"[0] == 'e';
    assert FirstNode(nodes, "w").Some? && nodes[1..] == [nodes[1]] && FirstNode([nodes[1]], "e").Some?;
    assert FirstNode(nodes, "e").Some?;
  }

  lemma PairSlugs()
    ensures Slugify("west") != Slugify("east") && Slugify("w") != Slugify("e")
  {
    WordIsSlug("west");
    WordIsSlug("east");
    WordIsSlug("w");
    WordIsSlug("e");
    assert "west"[0] == 'w' && "east"[0] == 'e' && "w"[0] == 'w' && "e"[0] == 'e';
  }

  /** Assembling the pair gives an accepted architecture whose tables repeat a destination. */
  method AssemblePair() returns (cloud: CloudArchitecture, issues: seq<Issue>)
    ensures RouteReport(issues, cloud.infra)
    ensures exists issue <- issues :: issue.DuplicateRouteDestination?
  {
    var plan := Plan(false, false, true, true, map[], map[]);
    PairIsPair();
    PairSlugs();
    SluggedUsesSlugs();
    var assembled, t := Assemble(plan, Pair(), Slugged());
    PairAccepted(t, Pair().nodes[0], Pair().nodes[1], West(), East());
    cloud := assembled.value;
    issues := ValidateRouteTables(cloud.infra);
    PairReported(t, issues, Pair().nodes[0], Pair().nodes[1], West(), East());
  }
}
