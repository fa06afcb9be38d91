/**
 What an assembly holds, said of the network and the plan alone: which networks, subnets, gateways,
 routes, security groups, instances and reports there are, and what is in each.
 */
module AssemblyMeaning {
  import opened Wrappers
  import opened Addressing
  import opened NetworkModel
  import opened CloudModel
  import Lists
  import opened Sorting
  import opened Segments
  import opened CloudAssembler
  import opened AssemblyFacts
  import opened AssemblerTheorems
  import opened RouteTheorems
  import opened SegmentMembers

  // ---------- Domains ----------

  predicate HasForwarder(t: Translation) {
    exists n <- t.arch.nodes :: Forwards(n)
  }

  /** The forwarder whose id comes first. */
  predicate IsFirstForwarder(t: Translation, routerId: string) {
    IsForwarderId(t.arch, routerId) && forall n <- t.arch.nodes :: Forwards(n) ==> !Less(n.id, routerId)
  }

  /** A segment is in the domain of a forwarder when that is the only forwarder on it; one without any
      is in the domain of the first forwarder. Without forwarders there is one domain with everything. */
  predicate BelongsTo(t: Translation, v: SegmentView, routerId: string) {
    if !HasForwarder(t) then routerId == IMPLICIT
    else
      && (forall id <- v.nodeIds :: IsForwarderId(t.arch, id) ==> id == routerId)
      && IsForwarderId(t.arch, routerId)
      && (routerId in v.nodeIds || IsFirstForwarder(t, routerId))
  }

  lemma LeastLeads(ids: seq<string>, id: string)
    requires ids != [] && Ascending(ids, (x: string) => x) && id in ids
    ensures !Less(id, ids[0])
  {
    var j :| 0 <= j < |ids| && ids[j] == id;
    if j == 0 && Less(id, id) {
      LessAsymmetric(id, id);
    }
  }

  lemma RoutersKnown(t: Translation)
    requires t.Valid()
    ensures forall id :: id in Routers(t.arch.nodes) <==> IsForwarderId(t.arch, id)
  {
    forall id ensures id in Routers(t.arch.nodes) <==> IsForwarderId(t.arch, id) {
      ForwarderKnown(t.arch, id);
    }
  }

  lemma RoutersExactly(t: Translation)
    requires t.Valid()
    ensures forall id :: id in Routers(t.arch.nodes) <==> IsForwarderId(t.arch, id)
    ensures Routers(t.arch.nodes) == [] <==> !HasForwarder(t)
    ensures HasForwarder(t) ==> IsFirstForwarder(t, Routers(t.arch.nodes)[0])
  {
    var routers := Routers(t.arch.nodes);
    RoutersKnown(t);
    SortAscending(ForwarderIds(t.arch.nodes), (id: string) => id);
    if n :| n in t.arch.nodes && Forwards(n) {
      assert IsForwarderId(t.arch, n.id);
    }
    if routers != [] {
      assert routers[0] in routers && IsForwarderId(t.arch, routers[0]);
      forall n | n in t.arch.nodes && Forwards(n) ensures !Less(n.id, routers[0]) {
        assert IsForwarderId(t.arch, n.id);
        LeastLeads(routers, n.id);
      }
    }
  }

  lemma FirstForwarderUnique(t: Translation, a: string, b: string)
    requires IsFirstForwarder(t, a) && IsFirstForwarder(t, b)
    ensures a == b
  {
    LessTotal(a, b);
  }

  lemma OwnedExactly(t: Translation, v: SegmentView, routerId: string)
    requires t.Valid() && v in t.segments && HasForwarder(t) && routerId in Routers(t.arch.nodes)
    ensures Routers(t.arch.nodes) != []
    ensures OwnedBy(v.nodeIds, routerId, Routers(t.arch.nodes)) <==> BelongsTo(t, v, routerId)
  {
    var routers := Routers(t.arch.nodes);
    RoutersExactly(t);
    var owners := Owners(v.nodeIds, routers);
    if OwnedBy(v.nodeIds, routerId, routers) {
      if owners != {} {
        SoleElement(owners, routerId);
      }
      forall id | id in v.nodeIds && IsForwarderId(t.arch, id) ensures id == routerId {
        assert id in owners;
      }
    }
    if BelongsTo(t, v, routerId) {
      assert owners <= {routerId};
      if routerId in v.nodeIds {
        assert owners == {routerId};
      } else {
        assert owners == {};
        FirstForwarderUnique(t, routerId, routers[0]);
      }
    }
  }

  /** There is a domain for each forwarder, or one without any, and a segment is in it exactly when it
      belongs to it. */
  lemma DomainsExactly(t: Translation, v: SegmentView, routerId: string)
    requires t.Valid() && v in t.segments
    ensures (exists k | 0 <= k < |t.domains| :: t.domains[k].routerId == routerId && v in t.domains[k].segments)
            <==> BelongsTo(t, v, routerId)
  {
    var routers := Routers(t.arch.nodes);
    RoutersExactly(t);
    if k :| 0 <= k < |t.domains| && t.domains[k].routerId == routerId && v in t.domains[k].segments {
      DomainAt(t, k);
      InDomain(t, k, v);
      if routers != [] {
        OwnedExactly(t, v, routerId);
      }
    }
    if BelongsTo(t, v, routerId) {
      var k := 0;
      if routers != [] {
        OwnedExactly(t, v, routerId);
        k :| 0 <= k < |routers| && routers[k] == routerId;
      }
      DomainAt(t, k);
      InDomain(t, k, v);
    }
  }

  // ---------- Networks and subnets ----------

  /** The name a network is called after: the forwarder's, as displayed. */
  predicate IsNameOf(t: Translation, routerId: string, name: string) {
    || (exists n <- t.arch.nodes :: n.id == routerId && n.displayName == name)
    || ((forall n <- t.arch.nodes :: n.id != routerId) && name == routerId)
  }

  lemma NetworkIdExactly(t: Translation, routerId: string, name: string)
    requires t.Valid() && IsNameOf(t, routerId, name)
    ensures NetworkId(t.arch, routerId, t.names) == "vpc-" + t.names.slug(name)
  {
    var node := t.arch.NodeById(routerId);
    if n :| n in t.arch.nodes && n.id == routerId && n.displayName == name {
      SameNode(t.arch, n, node.value);
    }
  }

  lemma NameExists(t: Translation, routerId: string) returns (name: string)
    ensures IsNameOf(t, routerId, name)
  {
    if n :| n in t.arch.nodes && n.id == routerId {
      name := n.displayName;
    } else {
      name := routerId;
    }
  }

  /** The blocks of the segments of a domain. */
  predicate IsBlockOf(t: Translation, routerId: string, block: SubnetSpec) {
    exists v <- t.segments :: BelongsTo(t, v, routerId) && v.subnet == block
  }

  /** The smallest IPv4 block that holds every IPv4 block of the domain. */
  ghost predicate IsCoverOf(t: Translation, routerId: string, cover: SubnetSpec) {
    && cover.version.V4?
    && (forall b: SubnetSpec :: b.version.V4? && IsBlockOf(t, routerId, b) ==> b.IsSubnetOf(cover))
    && (forall d: SubnetSpec :: d.version.V4? && (forall b: SubnetSpec :: b.version.V4? && IsBlockOf(t, routerId, b) ==> b.IsSubnetOf(d))
                                ==> cover.IsSubnetOf(d))
  }

  /** The domain of this forwarder has an IPv4 segment. */
  predicate HasIPv4Segment(t: Translation, routerId: string) {
    exists v <- t.segments :: BelongsTo(t, v, routerId) && v.subnet.version.V4?
  }

  lemma BlockListed(segments: seq<SegmentView>, b: SubnetSpec)
    ensures b in SubnetsIn(segments) <==> exists v <- segments :: v.subnet == b
  {
    if b in SubnetsIn(segments) {
      var j :| 0 <= j < |segments| && SubnetsIn(segments)[j] == b;
      assert segments[j] in segments;
    }
    if v :| v in segments && v.subnet == b {
      var j :| 0 <= j < |segments| && segments[j] == v;
      assert SubnetsIn(segments)[j] == b;
    }
  }

  lemma InDomainExactly(t: Translation, k: nat, v: SegmentView)
    requires t.Valid() && k < |t.domains|
    ensures v in t.domains[k].segments <==> v in t.segments && BelongsTo(t, v, t.domains[k].routerId)
  {
    InDomain(t, k, v);
    if v in t.segments {
      DomainsExactly(t, v, t.domains[k].routerId);
      forall m | 0 <= m < |t.domains| && t.domains[m].routerId == t.domains[k].routerId
        ensures t.domains[m] == t.domains[k]
      {
        SameRouterSameDomain(t, m, k);
      }
    }
  }

  lemma DomainBlocks(t: Translation, k: nat, b: SubnetSpec)
    requires t.Valid() && k < |t.domains|
    ensures b in SubnetsIn(t.domains[k].segments) <==> IsBlockOf(t, t.domains[k].routerId, b)
  {
    BlockListed(t.domains[k].segments, b);
    forall v ensures v in t.domains[k].segments <==> v in t.segments && BelongsTo(t, v, t.domains[k].routerId) {
      InDomainExactly(t, k, v);
    }
  }

  lemma SameRouterSameDomain(t: Translation, j: nat, k: nat)
    requires t.Valid() && j < |t.domains| && k < |t.domains| && t.domains[j].routerId == t.domains[k].routerId
    ensures t.domains[j] == t.domains[k]
  {
    DomainAt(t, j);
    DomainAt(t, k);
  }

  lemma CoverExactly(t: Translation, k: nat)
    requires t.Valid() && k < |t.domains|
    ensures t.covers[k].Some? <==> HasIPv4Segment(t, t.domains[k].routerId)
    ensures t.covers[k].Some? ==> IsCoverOf(t, t.domains[k].routerId, t.covers[k].value)
  {
    CoverAt(t.covers, t.domains, k);
    var r, blocks := t.domains[k].routerId, SubnetsIn(t.domains[k].segments);
    forall b: SubnetSpec ensures b in blocks <==> IsBlockOf(t, r, b) {
      DomainBlocks(t, k, b);
    }
    if v :| v in t.segments && BelongsTo(t, v, r) && v.subnet.version.V4? {
      assert IsBlockOf(t, r, v.subnet);
    }
    if t.covers[k].Some? {
      var cover := t.covers[k].value;
      forall d: SubnetSpec | d.version.V4? && forall b: SubnetSpec :: b.version.V4? && IsBlockOf(t, r, b) ==> b.IsSubnetOf(d)
        ensures cover.IsSubnetOf(d)
      {
        assert CoversIPv4(d, blocks);
      }
    }
  }

  lemma CoverUnique(t: Translation, routerId: string, a: SubnetSpec, b: SubnetSpec)
    requires IsCoverOf(t, routerId, a) && IsCoverOf(t, routerId, b)
    ensures a == b
  {
    MutualSubnetsEqual(a, b);
  }

  /** The domain of this forwarder is one of the assembly's. */
  predicate IsDomain(t: Translation, routerId: string) {
    if HasForwarder(t) then IsForwarderId(t.arch, routerId) else routerId == IMPLICIT
  }

  lemma DomainListed(t: Translation, routerId: string)
    requires t.Valid()
    ensures IsDomain(t, routerId) <==> exists k | 0 <= k < |t.domains| :: t.domains[k].routerId == routerId
  {
    var routers := Routers(t.arch.nodes);
    RoutersExactly(t);
    if k :| 0 <= k < |t.domains| && t.domains[k].routerId == routerId {
      DomainAt(t, k);
    }
    if IsDomain(t, routerId) {
      var k := 0;
      if routers != [] {
        k :| 0 <= k < |routers| && routers[k] == routerId;
      }
      DomainAt(t, k);
    }
  }

  /** The network of a domain. */
  ghost predicate IsNetworkOf(t: Translation, routerId: string, n: VirtualNetwork) {
    && (exists name :: IsNameOf(t, routerId, name) && n.id == "vpc-" + t.names.slug(name))
    && IsCoverOf(t, routerId, n.cidr) && n.secondaryCidrs == []
    && n.sourceNodeIds == if routerId == IMPLICIT then [] else [routerId]
  }

  /** There is a network for each domain with an IPv4 segment, with the smallest block that holds
      them, and no other. */
  lemma NetworksExactly(t: Translation, n: VirtualNetwork)
    requires t.Valid()
    ensures n in t.Networks() <==>
            exists routerId :: IsDomain(t, routerId) && HasIPv4Segment(t, routerId) && IsNetworkOf(t, routerId, n)
  {
    if n in t.Networks() {
      var k := NetworkFrom(t.arch, t.domains, t.covers, t.names, n);
      var routerId := t.domains[k].routerId;
      DomainListed(t, routerId);
      CoverExactly(t, k);
      var name := NameExists(t, routerId);
      NetworkIdExactly(t, routerId, name);
      assert IsNetworkOf(t, routerId, n);
    }
    if routerId :| IsDomain(t, routerId) && HasIPv4Segment(t, routerId) && IsNetworkOf(t, routerId, n) {
      DomainListed(t, routerId);
      var k :| 0 <= k < |t.domains| && t.domains[k].routerId == routerId;
      CoverExactly(t, k);
      CoverUnique(t, routerId, n.cidr, t.covers[k].value);
      var name :| IsNameOf(t, routerId, name) && n.id == "vpc-" + t.names.slug(name);
      NetworkIdExactly(t, routerId, name);
      NetworkListed(t.arch, t.domains, t.covers, t.names, k);
    }
  }

  /** The subnet that a segment becomes in the network of its domain. */
  ghost predicate IsSubnetFor(t: Translation, v: SegmentView, routerId: string, s: Subnet) {
    && s.id == "sn-" + t.names.cidrSlug(v.subnet) && s.cidr == v.subnet
    && s.segmentId == "seg-" + t.names.cidrSlug(v.subnet)
    && (exists name :: IsNameOf(t, routerId, name) && s.networkId == "vpc-" + t.names.slug(name))
    && s.isTransit == v.isTransit && !s.isPublic && s.availabilityZone == None
  }

  /** The subnets are exactly those of the segments of the domains that have a network. */
  lemma SubnetsExactly(t: Translation, s: Subnet)
    requires t.Valid()
    ensures s in t.Subnets() <==>
            exists v, routerId :: v in t.segments && BelongsTo(t, v, routerId) && HasIPv4Segment(t, routerId)
                                  && IsSubnetFor(t, v, routerId, s)
  {
    if s in t.Subnets() {
      var v, k := SubnetOrigin(t, s);
      var routerId := t.domains[k].routerId;
      DomainsExactly(t, v, routerId);
      CoverExactly(t, k);
      SegmentIs(t, v);
      var name := NameExists(t, routerId);
      NetworkIdExactly(t, routerId, name);
      assert IsSubnetFor(t, v, routerId, s);
    }
    if v, routerId :| v in t.segments && BelongsTo(t, v, routerId) && HasIPv4Segment(t, routerId) && IsSubnetFor(t, v, routerId, s) {
      DomainsExactly(t, v, routerId);
      var k :| 0 <= k < |t.domains| && t.domains[k].routerId == routerId && v in t.domains[k].segments;
      CoverExactly(t, k);
      SegmentIs(t, v);
      var name :| IsNameOf(t, routerId, name) && s.networkId == "vpc-" + t.names.slug(name);
      NetworkIdExactly(t, routerId, name);
      SubnetListed(t, k, v);
    }
  }

  // ---------- Gateways ----------

  predicate IsFirstSubnetAt(subnets: seq<Subnet>, networkId: string, s: Subnet, j: nat) {
    && j < |subnets| && subnets[j] == s && s.networkId == networkId
    && forall i | 0 <= i < j :: subnets[i].networkId != networkId
  }

  /** The first subnet of the network. */
  predicate IsFirstSubnet(subnets: seq<Subnet>, networkId: string, s: Subnet) {
    exists j | 0 <= j < |subnets| :: IsFirstSubnetAt(subnets, networkId, s, j)
  }

  lemma NoneBefore(front: seq<Subnet>, networkId: string)
    requires SubnetsOf(front, networkId) == []
    ensures forall i | 0 <= i < |front| :: front[i].networkId != networkId
  {
    forall i | 0 <= i < |front| ensures front[i].networkId != networkId {
      assert front[i] in front && front[i] !in SubnetsOf(front, networkId);
    }
  }

  lemma {:induction false} FirstSubnetAt(subnets: seq<Subnet>, networkId: string) returns (j: nat)
    requires SubnetsOf(subnets, networkId) != []
    ensures IsFirstSubnetAt(subnets, networkId, SubnetsOf(subnets, networkId)[0], j)
  {
    var front := subnets[..|subnets| - 1];
    if SubnetsOf(front, networkId) == [] {
      NoneBefore(front, networkId);
      j := |subnets| - 1;
    } else {
      j := FirstSubnetAt(front, networkId);
    }
  }

  lemma FirstSubnetExactly(subnets: seq<Subnet>, networkId: string, s: Subnet)
    ensures SubnetsOf(subnets, networkId) != [] && SubnetsOf(subnets, networkId)[0] == s
            <==> IsFirstSubnet(subnets, networkId, s)
  {
    if SubnetsOf(subnets, networkId) != [] {
      var j := FirstSubnetAt(subnets, networkId);
      forall k | IsFirstSubnetAt(subnets, networkId, s, k) ensures k == j {
      }
    }
  }

  /** The first public subnet, if any is public. */
  lemma {:induction false} FirstPublicExactly(subnets: seq<Subnet>, s: Subnet)
    ensures FirstPublic(subnets) == Some(s) <==>
            exists j | 0 <= j < |subnets| :: subnets[j] == s && s.isPublic && forall i | 0 <= i < j :: !subnets[i].isPublic
  {
    if subnets != [] && !subnets[0].isPublic {
      var rest := subnets[1..];
      FirstPublicExactly(rest, s);
      if j :| 0 <= j < |rest| && rest[j] == s && s.isPublic && forall i | 0 <= i < j :: !rest[i].isPublic {
        assert subnets[j + 1] == s && forall i | 1 <= i < j + 1 :: subnets[i] == rest[i - 1];
      }
      if j :| 0 <= j < |subnets| && subnets[j] == s && s.isPublic && forall i | 0 <= i < j :: !subnets[i].isPublic {
        assert rest[j - 1] == s && forall i | 0 <= i < j - 1 :: rest[i] == subnets[i + 1];
      }
    }
  }

  lemma {:induction false} OwnGatewayFrom(plan: Plan, networks: seq<VirtualNetwork>, subnets: seq<Subnet>, g: Gateway)
    returns (n: VirtualNetwork)
    requires g in NetworkGateways(plan, networks, subnets)
    ensures n in networks && SubnetsOf(subnets, n.id) != [] && g in OwnGateways(plan, n, SubnetsOf(subnets, n.id))
  {
    var front := networks[..|networks| - 1];
    if g in NetworkGateways(plan, front, subnets) {
      n := OwnGatewayFrom(plan, front, subnets, g);
    } else {
      n := networks[|networks| - 1];
    }
  }

  lemma NonePublic(t: Translation, n: VirtualNetwork)
    requires t.Valid()
    ensures FirstPublic(SubnetsOf(t.Subnets(), n.id)) == None
  {
    var public := FirstPublic(SubnetsOf(t.Subnets(), n.id));
    if public.Some? {
      var v, k := SubnetOrigin(t, public.value);
      var own := SubnetsOf(t.Subnets(), n.id);
      FirstPublicExactly(own, public.value);
    }
  }

  predicate IsInternetGateway(t: Translation, n: VirtualNetwork, g: Gateway) {
    t.plan.wantsInternet && g == Gateway("gw-igw-" + n.id, Internet, Some(n.id), None, [])
  }

  predicate IsNatGateway(t: Translation, n: VirtualNetwork, g: Gateway)
    requires |t.covers| == |t.domains|
  {
    && t.plan.wantsNat && g.subnetId.Some?
    && (exists s <- t.Subnets() :: s.id == g.subnetId.value && IsFirstSubnet(t.Subnets(), n.id, s))
    && g == Gateway("gw-nat-" + n.id, Nat, Some(n.id), g.subnetId, [])
  }

  predicate IsSharedGateway(t: Translation, g: Gateway)
    requires |t.covers| == |t.domains|
  {
    && g.networkId == None && g.subnetId == None && |g.peerNetworkIds| == |t.Networks()|
    && (forall k | 0 <= k < |t.Networks()| :: g.peerNetworkIds[k] == t.Networks()[k].id)
    && (|| (t.plan.wantsPeering && |t.Networks()| == 2 && g.id == "gw-peering" && g.kind == Peering)
        || (t.plan.wantsTransit && |t.Networks()| >= 2 && g.id == "gw-transit" && g.kind == GatewayType.Transit))
  }

  lemma OwnGatewaysAre(t: Translation, n: VirtualNetwork, g: Gateway)
    requires t.Valid() && n in t.Networks()
    ensures SubnetsOf(t.Subnets(), n.id) != []
    ensures g in OwnGateways(t.plan, n, SubnetsOf(t.Subnets(), n.id)) <==> IsInternetGateway(t, n, g) || IsNatGateway(t, n, g)
  {
    NetworkHasSubnet(t, n);
    NonePublic(t, n);
    var own := SubnetsOf(t.Subnets(), n.id);
    NatSubnetIs(t, n, g);
    OwnGatewaysHold(t.plan, n, own, g);
  }

  lemma OwnGatewaysHold(plan: Plan, n: VirtualNetwork, own: seq<Subnet>, g: Gateway)
    requires own != [] && FirstPublic(own) == None
    ensures g in OwnGateways(plan, n, own) <==>
            || (plan.wantsInternet && g == Gateway("gw-igw-" + n.id, Internet, Some(n.id), None, []))
            || (plan.wantsNat && g == Gateway("gw-nat-" + n.id, Nat, Some(n.id), Some(own[0].id), []))
  {
  }

  lemma NatSubnetIs(t: Translation, n: VirtualNetwork, g: Gateway)
    requires t.Valid() && SubnetsOf(t.Subnets(), n.id) != []
    ensures var own := SubnetsOf(t.Subnets(), n.id);
            IsNatGateway(t, n, g) <==>
            t.plan.wantsNat && g == Gateway("gw-nat-" + n.id, Nat, Some(n.id), Some(own[0].id), [])
  {
    var own := SubnetsOf(t.Subnets(), n.id);
    FirstSubnetExactly(t.Subnets(), n.id, own[0]);
    assert own[0] in t.Subnets();
    if g.subnetId.Some? {
      if s :| s in t.Subnets() && s.id == g.subnetId.value && IsFirstSubnet(t.Subnets(), n.id, s) {
        FirstSubnetExactly(t.Subnets(), n.id, s);
      }
    }
  }

  lemma SharedGatewaysAre(t: Translation, g: Gateway)
    requires t.Valid()
    ensures g in SharedGateways(t.plan, t.Networks()) <==> IsSharedGateway(t, g)
  {
    var ids := NetworkIds(t.Networks());
    if IsSharedGateway(t, g) {
      assert g.peerNetworkIds == ids;
    }
  }

  /** The gateways are exactly those the plan asks for: an internet gateway on each network, a NAT
      gateway in the first subnet of each, one peering of exactly two networks, and one transit
      gateway of two or more. */
  lemma GatewaysExactly(t: Translation, g: Gateway)
    requires t.Valid()
    ensures g in t.Gateways() <==>
            || (exists n <- t.Networks() :: IsInternetGateway(t, n, g) || IsNatGateway(t, n, g))
            || IsSharedGateway(t, g)
  {
    SharedGatewaysAre(t, g);
    if g in NetworkGateways(t.plan, t.Networks(), t.Subnets()) {
      var n := OwnGatewayFrom(t.plan, t.Networks(), t.Subnets(), g);
      OwnGatewaysAre(t, n, g);
    }
    if n :| n in t.Networks() && (IsInternetGateway(t, n, g) || IsNatGateway(t, n, g)) {
      OwnGatewaysAre(t, n, g);
      FirstOwnGateway(t.plan, t.Networks(), t.Subnets(), n, g);
    }
  }

  // ---------- Routes ----------

  lemma GatewayOfKind(t: Translation, n: VirtualNetwork, g: Gateway)
    requires t.Valid() && g in t.Gateways() && g.networkId == Some(n.id)
    ensures g.kind.Internet? ==> t.plan.wantsInternet && g.id == "gw-igw-" + n.id
    ensures g.kind.Nat? ==> t.plan.wantsNat && g.id == "gw-nat-" + n.id
  {
    GatewaysExactly(t, g);
  }

  lemma InternetWanted(t: Translation, n: VirtualNetwork)
    requires t.Valid() && n in t.Networks() && t.plan.wantsInternet
    ensures FirstGateway(t.Gateways(), Internet, n.id).Some?
  {
    GatewaysExactly(t, Gateway("gw-igw-" + n.id, Internet, Some(n.id), None, []));
  }

  lemma NatWanted(t: Translation, n: VirtualNetwork)
    requires t.Valid() && n in t.Networks() && t.plan.wantsNat
    ensures FirstGateway(t.Gateways(), Nat, n.id).Some?
  {
    NetworkHasSubnet(t, n);
    var s := SubnetsOf(t.Subnets(), n.id)[0];
    var g := Gateway("gw-nat-" + n.id, Nat, Some(n.id), Some(s.id), []);
    NatSubnetIs(t, n, g);
    GatewaysExactly(t, g);
  }

  /** The default route goes to the internet gateway where there is one, and else to the NAT gateway. */
  lemma DefaultRouteExactly(t: Translation, n: VirtualNetwork)
    requires t.Valid() && n in t.Networks()
    ensures DefaultRoutes(n, t.Gateways())
            == if t.plan.wantsInternet then [Route(DEFAULT_ROUTE, "gw-igw-" + n.id)]
               else if t.plan.wantsNat then [Route(DEFAULT_ROUTE, "gw-nat-" + n.id)]
               else []
  {
    if t.plan.wantsInternet {
      InternetWanted(t, n);
    }
    if t.plan.wantsNat {
      NatWanted(t, n);
    }
    var internet, outbound := FirstGateway(t.Gateways(), Internet, n.id), FirstGateway(t.Gateways(), Nat, n.id);
    if internet.Some? {
      GatewayOfKind(t, n, internet.value);
    }
    if outbound.Some? {
      GatewayOfKind(t, n, outbound.value);
    }
  }

  /** The routes of a network: the default route, then one to each other network through the peering,
      then one to each through the transit gateway. */
  lemma RoutesExactly(t: Translation, n: VirtualNetwork)
    requires Accepted(t) && n in t.Networks()
    ensures RoutesOf(t, n)
            == (if t.plan.wantsInternet then [Route(DEFAULT_ROUTE, "gw-igw-" + n.id)]
                else if t.plan.wantsNat then [Route(DEFAULT_ROUTE, "gw-nat-" + n.id)]
                else [])
               + (if t.plan.wantsPeering && |t.Networks()| == 2 then RoutesToOthers(n.id, t.Networks(), "gw-peering") else [])
               + (if t.plan.wantsTransit && |t.Networks()| >= 2 then RoutesToOthers(n.id, t.Networks(), "gw-transit") else [])
  {
    DefaultRouteExactly(t, n);
    IdsApart(t);
    SharedRoutes(t, n);
    Lists.Associate(DefaultRoutes(n, t.Gateways()), PeeringRoutes(t, n.id), TransitRoutes(t, n.id));
  }

  /** The table of a network: its routes, and all of its subnets. */
  predicate IsTableOf(t: Translation, n: VirtualNetwork, table: RouteTable)
    requires |t.covers| == |t.domains|
  {
    && table.id == "rt-" + n.id && table.networkId == n.id && table.routes == RoutesOf(t, n)
    && |table.associatedSubnetIds| == |SubnetsOf(t.Subnets(), n.id)|
    && forall k | 0 <= k < |table.associatedSubnetIds| ::
         table.associatedSubnetIds[k] == SubnetsOf(t.Subnets(), n.id)[k].id
  }

  /** There is exactly such a table for each network. */
  lemma TablesExactly(t: Translation, table: RouteTable)
    requires t.Valid()
    ensures table in t.Infra().routeTables <==> exists n <- t.Networks() :: IsTableOf(t, n, table)
  {
    if table in t.Infra().routeTables {
      var n := TableFrom(t.Networks(), t.Subnets(), t.Gateways(), t.Networks(), table);
      TableForIs(t, n, table);
    }
    if n :| n in t.Networks() && IsTableOf(t, n, table) {
      NetworkHasSubnet(t, n);
      TableListed(t.Networks(), t.Subnets(), t.Gateways(), t.Networks(), n);
      TableForIs(t, n, table);
    }
  }

  lemma TableForIs(t: Translation, n: VirtualNetwork, table: RouteTable)
    requires |t.covers| == |t.domains|
    ensures table == TableFor(n, SubnetsOf(t.Subnets(), n.id), t.Gateways(), t.Networks()) <==> IsTableOf(t, n, table)
  {
    var own := SubnetsOf(t.Subnets(), n.id);
    if IsTableOf(t, n, table) {
      assert table.associatedSubnetIds == SubnetIds(own);
    }
  }

  // ---------- Security groups ----------

  /** The groups are those of the firewalls, in the first network, with the rules of the plan. */
  lemma GroupsExactly(t: Translation, g: SecurityGroup)
    requires t.Valid()
    ensures g in t.Groups() <==>
            t.Networks() != []
            && exists n <- t.arch.nodes ::
                 n.kind == Firewall
                 && g == SecurityGroup("sg-" + t.names.slug(n.id), t.Networks()[0].id,
                                       if n.id in t.plan.rules then t.plan.rules[n.id] else [])
  {
    if t.Networks() != [] {
      GroupsAreFirewalls(t.arch.nodes, t.plan, t.Networks()[0].id, t.names, g);
    }
  }

  // ---------- Instances ----------

  predicate HasPlacedInterface(t: Translation, node: Node)
    requires |t.covers| == |t.domains|
  {
    exists i <- t.arch.interfaces :: i.nodeId == node.id && HasSubnetFor(t, i)
  }

  lemma NicsExactly(t: Translation, node: Node)
    requires t.Valid()
    ensures Nics(t, node) != [] <==> HasPlacedInterface(t, node)
  {
    var own := InterfacesOf(t.arch.interfaces, node.id);
    if Nics(t, node) != [] {
      var i := NicFrom(t, node, own, Nics(t, node)[0]);
      InterfacesOfMeans(t.arch.interfaces, node.id, i);
      PlacementExactly(t, i);
    }
    if i :| i in t.arch.interfaces && i.nodeId == node.id && HasSubnetFor(t, i) {
      InterfacesOfMeans(t.arch.interfaces, node.id, i);
      PlacementExactly(t, i);
      var nic := NicWhen(t, node, own, i);
    }
  }

  /** A component becomes an instance exactly when the plan or its kind says so and one of its
      interfaces has a subnet. */
  lemma InstancesExactly(t: Translation, node: Node)
    requires t.Valid() && node in t.arch.nodes
    ensures (exists c <- t.Instances() :: c.sourceNodeId == node.id) <==>
            BecomesCompute(t.plan, node) && HasPlacedInterface(t, node)
  {
    KindExactly(t.plan, node);
    NicsExactly(t, node);
    if c :| c in t.Instances() && c.sourceNodeId == node.id {
      var origin := InstanceFrom(t, t.arch.nodes, c);
      SameNode(t.arch, origin, node);
    }
    if BecomesCompute(t.plan, node) && HasPlacedInterface(t, node) {
      InstanceWhen(t, t.arch.nodes, node);
    }
  }

  /** What an instance is, apart from its interfaces. */
  predicate IsInstanceOf(t: Translation, node: Node, c: ComputeInstance)
    requires |t.covers| == |t.domains|
  {
    var entries := t.plan.entries;
    && c.id == "c-" + t.names.slug(node.id) && c.sourceNodeId == node.id
    && c.interfaces != [] && c.subnetId == Some(c.interfaces[0].subnetId)
    && c.keyName == None && |c.securityGroupIds| == |t.Groups()|
    && (forall k | 0 <= k < |t.Groups()| :: c.securityGroupIds[k] == t.Groups()[k].id)
    && c.image == (if node.id in entries then entries[node.id].image else None)
    && (c.assignPublicIp <==> node.id in entries && entries[node.id].publicIp)
    && (c.isForwarder <==> Forwards(node))
  }

  lemma InstanceMeans(t: Translation, c: ComputeInstance) returns (node: Node)
    requires t.Valid() && c in t.Instances()
    ensures node in t.arch.nodes && IsInstanceOf(t, node, c) && c.interfaces == Nics(t, node)
  {
    node := InstanceFrom(t, t.arch.nodes, c);
    GroupIdsAre(t.Groups());
  }

  lemma {:induction false} GroupIdsAre(groups: seq<SecurityGroup>)
    ensures |CloudAssembler.GroupIds(groups)| == |groups|
    ensures forall k | 0 <= k < |groups| :: CloudAssembler.GroupIds(groups)[k] == groups[k].id
  {
    if groups != [] {
      GroupIdsAre(groups[..|groups| - 1]);
    }
  }

  /** The interface comes first among those of its node. */
  predicate IsFirstOf(t: Translation, i: Interface) {
    exists k | 0 <= k < |t.arch.interfaces| :: IsFirstInterfaceAt(t.arch.interfaces, i, k)
  }

  /** An interface of an instance: in the subnet of its segment, with its first address, primary when
      it is the first interface of the component, and not checking what it forwards on a forwarder. */
  predicate IsNicOf(t: Translation, node: Node, i: Interface, s: Subnet, nic: NetworkInterface) {
    && nic.id == "nic-" + t.names.slug(node.id) + "-" + t.names.slug(i.name)
    && nic.subnetId == s.id && nic.sourceInterfaceId == i.id
    && nic.privateIp == (if i.addresses == [] then None else Some(Parsed(i.addresses[0].address)))
    && (nic.sourceDestCheck <==> !Forwards(node)) && (nic.primary <==> IsFirstOf(t, i))
  }

  lemma {:induction false} NicAt(t: Translation, node: Node, own: seq<Interface>, nic: NetworkInterface) returns (k: nat)
    requires |t.covers| == |t.domains| && nic in NicsOf(node, own, t.segments, t.Subnets(), t.names)
    ensures k < |own| && Placement(own[k], t.segments, t.Subnets()).Some?
    ensures nic == NicFor(node, own[k], Placement(own[k], t.segments, t.Subnets()).value.id, k == 0, t.names)
  {
    var front := own[..|own| - 1];
    if nic in NicsOf(node, front, t.segments, t.Subnets(), t.names) {
      k := NicAt(t, node, front, nic);
    } else {
      k := |own| - 1;
    }
  }

  lemma {:induction false} NicOfEach(node: Node, own: seq<Interface>, segments: seq<SegmentView>, subnets: seq<Subnet>,
                                     names: Names, k: nat, s: Subnet, nic: NetworkInterface)
    requires k < |own| && Placement(own[k], segments, subnets) == Some(s) && nic == NicFor(node, own[k], s.id, k == 0, names)
    ensures nic in NicsOf(node, own, segments, subnets, names)
  {
    if k < |own| - 1 {
      NicOfEach(node, own[..|own| - 1], segments, subnets, names, k, s, nic);
    }
  }

  predicate IsFirstInterfaceAt(interfaces: seq<Interface>, i: Interface, k: nat) {
    k < |interfaces| && interfaces[k] == i && forall j | 0 <= j < k :: interfaces[j].nodeId != i.nodeId
  }

  lemma {:induction false} FirstOwnAt(interfaces: seq<Interface>, nodeId: string) returns (k: nat)
    requires InterfacesOf(interfaces, nodeId) != []
    ensures InterfacesOf(interfaces, nodeId)[0].nodeId == nodeId
    ensures IsFirstInterfaceAt(interfaces, InterfacesOf(interfaces, nodeId)[0], k)
  {
    var front, last := interfaces[..|interfaces| - 1], interfaces[|interfaces| - 1];
    if InterfacesOf(front, nodeId) == [] {
      k := |interfaces| - 1;
      forall j | 0 <= j < k ensures interfaces[j].nodeId != nodeId {
        InterfacesOfMeans(front, nodeId, front[j]);
      }
    } else {
      k := FirstOwnAt(front, nodeId);
    }
  }

  lemma {:induction false} OwnDistinct(interfaces: seq<Interface>, nodeId: string)
    requires forall j, k :: 0 <= j < k < |interfaces| ==> interfaces[j].id != interfaces[k].id
    ensures AllDistinct(InterfacesOf(interfaces, nodeId))
  {
    if interfaces != [] {
      var front, last := interfaces[..|interfaces| - 1], interfaces[|interfaces| - 1];
      OwnDistinct(front, nodeId);
      var own := InterfacesOf(front, nodeId);
      forall j | 0 <= j < |own| ensures own[j] != last {
        InterfacesOfMeans(front, nodeId, own[j]);
        var m :| 0 <= m < |front| && front[m] == own[j];
        assert interfaces[m].id != last.id;
      }
    }
  }

  /** The first of a component's own interfaces is the first of the network's that are its. */
  lemma FirstOwnExactly(t: Translation, nodeId: string, k: nat)
    requires t.Valid() && k < |InterfacesOf(t.arch.interfaces, nodeId)|
    ensures k == 0 <==> IsFirstOf(t, InterfacesOf(t.arch.interfaces, nodeId)[k])
  {
    var own := InterfacesOf(t.arch.interfaces, nodeId);
    OwnDistinct(t.arch.interfaces, nodeId);
    InterfacesOfMeans(t.arch.interfaces, nodeId, own[k]);
    var first := FirstOwnAt(t.arch.interfaces, nodeId);
    if m :| 0 <= m < |t.arch.interfaces| && IsFirstInterfaceAt(t.arch.interfaces, own[k], m) {
      assert m == first;
      assert own[k] == own[0];
    }
  }

  lemma PlacementIs(t: Translation, i: Interface, v: SegmentView, s: Subnet)
    requires Accepted(t) && NamesApart(t) && i in t.arch.interfaces && v in t.segments && s in t.Subnets()
    requires i.id in v.interfaceIds && s.segmentId == v.id
    ensures Placement(i, t.segments, t.Subnets()) == Some(s)
  {
    PlacementExactly(t, i);
    var found := Placement(i, t.segments, t.Subnets()).value;
    OnlySegment(t, i, v, SegmentWith(t.segments, i.id).value);
    var j := SubnetOfItsSegment(t, v, s);
    SameSubnetOf(t, v, j, found);
  }

  /** The interface, its segment and its subnet that an instance's interface comes from. */
  predicate ComesFrom(t: Translation, node: Node, i: Interface, v: SegmentView, s: Subnet, nic: NetworkInterface)
    requires |t.covers| == |t.domains|
  {
    && i in t.arch.interfaces && i.nodeId == node.id && v in t.segments && i.id in v.interfaceIds
    && s in t.Subnets() && s.segmentId == v.id && IsNicOf(t, node, i, s, nic)
  }

  lemma InterfaceComesFrom(t: Translation, node: Node, nic: NetworkInterface)
    returns (i: Interface, v: SegmentView, s: Subnet)
    requires t.Valid() && nic in Nics(t, node)
    ensures ComesFrom(t, node, i, v, s, nic)
  {
    var own := InterfacesOf(t.arch.interfaces, node.id);
    var k := NicAt(t, node, own, nic);
    i := own[k];
    InterfacesOfMeans(t.arch.interfaces, node.id, i);
    FirstOwnExactly(t, node.id, k);
    v, s := SegmentWith(t.segments, i.id).value, Placement(i, t.segments, t.Subnets()).value;
  }

  lemma SameNic(t: Translation, node: Node, i: Interface, s: Subnet, first: bool, nic: NetworkInterface)
    requires IsNicOf(t, node, i, s, nic) && (first <==> IsFirstOf(t, i))
    ensures nic == NicFor(node, i, s.id, first, t.names)
  {
  }

  lemma InterfaceGoesTo(t: Translation, node: Node, i: Interface, v: SegmentView, s: Subnet, nic: NetworkInterface)
    requires Accepted(t) && NamesApart(t) && ComesFrom(t, node, i, v, s, nic)
    ensures nic in Nics(t, node)
  {
    var own := InterfacesOf(t.arch.interfaces, node.id);
    InterfacesOfMeans(t.arch.interfaces, node.id, i);
    var k :| 0 <= k < |own| && own[k] == i;
    PlacementIs(t, i, v, s);
    FirstOwnExactly(t, node.id, k);
    SameNic(t, node, i, s, k == 0, nic);
    NicOfEach(node, own, t.segments, t.Subnets(), t.names, k, s, nic);
  }

  /** The interfaces of an instance are exactly those of its component that have a subnet. */
  lemma InterfacesExactly(t: Translation, node: Node, nic: NetworkInterface)
    requires Accepted(t) && NamesApart(t)
    ensures nic in Nics(t, node) <==> exists i, v, s :: ComesFrom(t, node, i, v, s, nic)
  {
    if nic in Nics(t, node) {
      var i, v, s := InterfaceComesFrom(t, node, nic);
    }
    if i, v, s :| ComesFrom(t, node, i, v, s, nic) {
      InterfaceGoesTo(t, node, i, v, s, nic);
    }
  }

  // ---------- What is reported ----------

  lemma {:induction false} NoBlocksExactly(t: Translation, domains: seq<Domain>, covers: seq<Cover>, r: string)
    requires |covers| == |domains|
    ensures NoBlock(r) in NoBlocks(domains, covers) <==>
            exists k | 0 <= k < |domains| :: covers[k].None? && domains[k].segments != [] && domains[k].routerId == r
    ensures forall note <- NoBlocks(domains, covers) :: note.NoBlock?
  {
    if domains != [] {
      NoBlocksExactly(t, domains[..|domains| - 1], covers[..|domains| - 1], r);
    }
  }

  lemma {:induction false} LinksExactly(segments: seq<SegmentView>, s: SubnetSpec)
    ensures TransportLink(s) in TransportLinks(segments) <==> exists v <- segments :: v.isTransport && v.subnet == s
    ensures forall note <- TransportLinks(segments) :: note.TransportLink?
  {
    if segments != [] {
      var front, last := segments[..|segments| - 1], segments[|segments| - 1];
      LinksExactly(front, s);
      assert forall v :: v in segments <==> v in front || v == last;
    }
  }

  predicate IsUnrecognised(t: Translation, n: Node, id: string) {
    n.id == id && n.id in t.plan.entries && t.plan.entries[n.id].kind == None
  }

  predicate IsNotPlaced(t: Translation, n: Node, id: string)
    requires |t.covers| == |t.domains|
  {
    n.id == id && BecomesCompute(t.plan, n) && !HasPlacedInterface(t, n)
  }

  function NotesWhen(id: string, unrecognised: bool, unplaced: bool): seq<Note> {
    (if unrecognised then [Unrecognised(id)] else []) + if unplaced then [NotPlaced(id)] else []
  }

  lemma NodeNotesAre(t: Translation, n: Node)
    requires |t.covers| == |t.domains|
    ensures NodeNotes(t.arch, n, t.plan, t.segments, t.Subnets(), t.names)
            == NotesWhen(n.id, n.id in t.plan.entries && t.plan.entries[n.id].kind == None,
                         KindOf(n, t.plan) == Some(Compute) && Nics(t, n) == [])
  {
  }

  lemma NotesWhenMean(owner: string, unrecognised: bool, unplaced: bool, id: string)
    ensures Unrecognised(id) in NotesWhen(owner, unrecognised, unplaced) <==> owner == id && unrecognised
    ensures NotPlaced(id) in NotesWhen(owner, unrecognised, unplaced) <==> owner == id && unplaced
    ensures forall note <- NotesWhen(owner, unrecognised, unplaced) :: note.Unrecognised? || note.NotPlaced?
  {
  }

  lemma NodeNotesMean(t: Translation, n: Node)
    requires t.Valid()
    ensures NodeNotes(t.arch, n, t.plan, t.segments, t.Subnets(), t.names)
            == NotesWhen(n.id, IsUnrecognised(t, n, n.id), IsNotPlaced(t, n, n.id))
  {
    NodeNotesAre(t, n);
    KindExactly(t.plan, n);
    NicsExactly(t, n);
  }

  lemma OneNodeNotes(t: Translation, n: Node, id: string) returns (notes: seq<Note>)
    requires t.Valid()
    ensures notes == NodeNotes(t.arch, n, t.plan, t.segments, t.Subnets(), t.names)
    ensures Unrecognised(id) in notes <==> IsUnrecognised(t, n, id)
    ensures NotPlaced(id) in notes <==> IsNotPlaced(t, n, id)
    ensures forall note <- notes :: note.Unrecognised? || note.NotPlaced?
  {
    NodeNotesMean(t, n);
    notes := NotesWhen(n.id, IsUnrecognised(t, n, n.id), IsNotPlaced(t, n, n.id));
    NotesWhenMean(n.id, IsUnrecognised(t, n, n.id), IsNotPlaced(t, n, n.id), id);
  }

  lemma NotesStep(t: Translation, nodes: seq<Node>) returns (front: seq<Note>)
    requires |t.covers| == |t.domains| && nodes != []
    ensures front == NotesOf(t.arch, nodes[..|nodes| - 1], t.plan, t.segments, t.Subnets(), t.names)
    ensures NotesOf(t.arch, nodes, t.plan, t.segments, t.Subnets(), t.names)
            == front + NodeNotes(t.arch, nodes[|nodes| - 1], t.plan, t.segments, t.Subnets(), t.names)
  {
    front := NotesOf(t.arch, nodes[..|nodes| - 1], t.plan, t.segments, t.Subnets(), t.names);
  }

  lemma {:induction false} NodeNotesExactly(t: Translation, nodes: seq<Node>, id: string)
    requires t.Valid()
    ensures var notes := NotesOf(t.arch, nodes, t.plan, t.segments, t.Subnets(), t.names);
            && (Unrecognised(id) in notes <==> exists n <- nodes :: IsUnrecognised(t, n, id))
            && (NotPlaced(id) in notes <==> exists n <- nodes :: IsNotPlaced(t, n, id))
            && (forall note <- notes :: note.Unrecognised? || note.NotPlaced?)
  {
    if nodes != [] {
      var last := nodes[|nodes| - 1];
      var front := NotesStep(t, nodes);
      NodeNotesExactly(t, nodes[..|nodes| - 1], id);
      var own := OneNodeNotes(t, last, id);
      assert forall n :: n in nodes <==> n in nodes[..|nodes| - 1] || n == last;
    }
  }

  /** The domain has segments but none of them is IPv4. */
  predicate IsUnblocked(t: Translation, routerId: string) {
    && IsDomain(t, routerId) && !HasIPv4Segment(t, routerId)
    && exists v <- t.segments :: BelongsTo(t, v, routerId)
  }

  lemma UnblockedExactly(t: Translation, routerId: string)
    requires t.Valid()
    ensures IsUnblocked(t, routerId) <==>
            exists k | 0 <= k < |t.domains| ::
              t.covers[k].None? && t.domains[k].segments != [] && t.domains[k].routerId == routerId
  {
    DomainListed(t, routerId);
    if k :| 0 <= k < |t.domains| && t.covers[k].None? && t.domains[k].segments != [] && t.domains[k].routerId == routerId {
      CoverExactly(t, k);
      var v := t.domains[k].segments[0];
      InDomainExactly(t, k, v);
    }
    if IsUnblocked(t, routerId) {
      var k :| 0 <= k < |t.domains| && t.domains[k].routerId == routerId;
      CoverExactly(t, k);
      var v :| v in t.segments && BelongsTo(t, v, routerId);
      InDomainExactly(t, k, v);
    }
  }

  /** What is reported as not represented, and nothing else: a domain with segments but no IPv4 one; a
      segment shared by forwarders; a component whose entry in the plan was not recognised; one that
      should compute and has no interface with a subnet. */
  predicate IsReported(t: Translation, note: Note)
    requires |t.covers| == |t.domains|
  {
    match note
    case NoBlock(r) => IsUnblocked(t, r)
    case TransportLink(s) => exists v <- t.segments :: v.isTransport && v.subnet == s
    case Unrecognised(id) =>
      exists n <- t.arch.nodes :: IsUnrecognised(t, n, id)
    case NotPlaced(id) =>
      exists n <- t.arch.nodes :: IsNotPlaced(t, n, id)
  }

  lemma UnmappedExactly(t: Translation, note: Note)
    requires t.Valid()
    ensures note in t.Unmapped() <==> IsReported(t, note)
  {
    var r := if note.NoBlock? then note.routerId else "";
    var s := if note.TransportLink? then note.subnet else DEFAULT_ROUTE;
    var id := if note.Unrecognised? || note.NotPlaced? then note.nodeId else "";
    NoBlocksExactly(t, t.domains, t.covers, r);
    UnblockedExactly(t, r);
    LinksExactly(t.segments, s);
    NodeNotesExactly(t, t.arch.nodes, id);
  }
}