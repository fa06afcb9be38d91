/**
 The assembler against the validators: what an assembled architecture can and cannot be
 reported for, and what becomes of every segment. The two sides are written independently;
 these lemmas hold of every network architecture and every plan.
 */
module AssemblerTheorems {
  import opened Wrappers
  import opened Addressing
  import opened NetworkModel
  import opened CloudModel
  import opened CloudValidators
  import opened Segments
  import opened CloudAssembler
  import opened AssemblyFacts
  import opened Slugs

  /** Distinct subnets of the discovered segments have distinct slugs. */
  predicate NamesApart(t: Translation) {
    forall v <- t.segments, w <- t.segments ::
      t.names.cidrSlug(v.subnet) == t.names.cidrSlug(w.subnet) ==> v.subnet == w.subnet
  }

  predicate Placed(t: Translation, v: SegmentView, k: nat) {
    k < |t.domains| == |t.covers| && t.covers[k].Some? && v in t.domains[k].segments
  }

  /** An assembly whose result passes its own integrity check. */
  ghost predicate Accepted(t: Translation) {
    t.Valid() && Admissible(t.Infra())
  }

  lemma IdsApart(t: Translation)
    requires Accepted(t)
    ensures forall j, k :: 0 <= j < k < |t.Networks()| ==> t.Networks()[j].id != t.Networks()[k].id
    ensures forall j, k :: 0 <= j < k < |t.Subnets()| ==> t.Subnets()[j].id != t.Subnets()[k].id
  {
    DistinctResources(t.Infra());
  }

  function SubnetIn(t: Translation, v: SegmentView, k: nat): Subnet
    requires k < |t.domains|
  {
    SubnetFor(v, NetworkId(t.arch, t.domains[k].routerId, t.names), t.names)
  }

  lemma SubnetOrigin(t: Translation, s: Subnet) returns (v: SegmentView, k: nat)
    requires t.Valid() && s in t.Subnets()
    ensures Placed(t, v, k) && s == SubnetIn(t, v, k) && v in t.segments
  {
    k, v := SubnetFrom(t.arch, t.domains, t.covers, t.names, s);
    InDomain(t, k, v);
  }

  lemma SegmentIdsApart(t: Translation, v: SegmentView, w: SegmentView)
    requires t.Valid() && NamesApart(t) && v in t.segments && w in t.segments && v.id == w.id
    ensures v == w
  {
    SegmentIs(t, v);
    SegmentIs(t, w);
    assert v.id[4..] == t.names.cidrSlug(v.subnet) && w.id[4..] == t.names.cidrSlug(w.subnet);
    SameSegment(t, v, w);
  }

  lemma PlacedAlike(t: Translation, v: SegmentView, j: nat, k: nat)
    requires t.Valid() && v in t.segments && Placed(t, v, j) && k < |t.domains| && v in t.domains[k].segments
    ensures Placed(t, v, k) && t.domains[j] == t.domains[k]
  {
    if v.isTransport {
      TransportInNoDomain(t, v, j);
    } else {
      var m := SegmentInOneDomain(t, v);
      CoverAt(t.covers, t.domains, j);
      CoverAt(t.covers, t.domains, k);
    }
  }

  // ---------- Conservation ----------

  predicate NoSubnet(t: Translation, v: SegmentView)
    requires |t.covers| == |t.domains|
  {
    forall s <- t.Subnets() :: s.segmentId != v.id
  }

  /** The subnet at this position is the segment's, and no other is. */
  predicate OnlySubnetAt(t: Translation, v: SegmentView, j: nat)
    requires |t.covers| == |t.domains|
  {
    && j < |t.Subnets()|
    && forall m | 0 <= m < |t.Subnets()| :: t.Subnets()[m].segmentId == v.id <==> m == j
  }

  lemma SubnetOfItsSegment(t: Translation, v: SegmentView, s: Subnet) returns (k: nat)
    requires t.Valid() && NamesApart(t) && v in t.segments && s in t.Subnets() && s.segmentId == v.id
    ensures Placed(t, v, k) && s == SubnetIn(t, v, k)
  {
    var w;
    w, k := SubnetOrigin(t, s);
    SegmentIdsApart(t, v, w);
  }

  lemma SameSubnetOf(t: Translation, v: SegmentView, k: nat, s: Subnet)
    requires t.Valid() && NamesApart(t) && v in t.segments && Placed(t, v, k)
    requires s in t.Subnets() && s.segmentId == v.id
    ensures s == SubnetIn(t, v, k)
  {
    var i := SubnetOfItsSegment(t, v, s);
    PlacedAlike(t, v, i, k);
  }

  lemma OneSubnet(t: Translation, v: SegmentView, k: nat) returns (j: nat)
    requires Accepted(t) && NamesApart(t) && v in t.segments && Placed(t, v, k)
    ensures OnlySubnetAt(t, v, j) && t.Subnets()[j] == SubnetIn(t, v, k)
  {
    var subnets := t.Subnets();
    SubnetListed(t, k, v);
    j :| 0 <= j < |subnets| && subnets[j] == SubnetIn(t, v, k);
    IdsApart(t);
    forall m | 0 <= m < |subnets| && subnets[m].segmentId == v.id ensures m == j {
      SameSubnetOf(t, v, k, subnets[m]);
    }
  }

  /** What becomes of a segment of a domain. */
  ghost predicate Settled(t: Translation, v: SegmentView, k: nat)
    requires |t.covers| == |t.domains| && k < |t.domains|
  {
    if HasIPv4(SubnetsIn(t.domains[k].segments)) then
      exists j | 0 <= j < |t.Subnets()| :: OnlySubnetAt(t, v, j) && t.Subnets()[j] == SubnetIn(t, v, k)
    else NoSubnet(t, v) && NoBlock(t.domains[k].routerId) in t.Unmapped()
  }

  /** A segment on several forwarders is reported as transport and becomes no subnet. Any other
      belongs to exactly one domain: it becomes exactly one subnet there, in that domain's network,
      unless the domain has no IPv4 segment, in which case the domain is reported. */
  lemma SegmentConserved(t: Translation, v: SegmentView)
    requires Accepted(t) && NamesApart(t) && v in t.segments
    ensures v.isTransport ==> NoSubnet(t, v) && TransportLink(v.subnet) in t.Unmapped()
    ensures !v.isTransport ==>
              exists k | 0 <= k < |t.domains| ::
                && v in t.domains[k].segments && Settled(t, v, k)
                && forall j | 0 <= j < |t.domains| && v in t.domains[j].segments :: t.domains[j] == t.domains[k]
  {
    if v.isTransport {
      TransportNotPlaced(t, v);
      TransportListed(t.segments, v);
    } else {
      var k := SegmentInOneDomain(t, v);
      CoverAt(t.covers, t.domains, k);
      if t.covers[k].Some? {
        var j := OneSubnet(t, v, k);
      } else {
        UnblockedNotPlaced(t, v, k);
        NoBlockListed(t.domains, t.covers, k);
      }
      assert Settled(t, v, k);
    }
  }

  lemma TransportNotPlaced(t: Translation, v: SegmentView)
    requires t.Valid() && NamesApart(t) && v in t.segments && v.isTransport
    ensures NoSubnet(t, v)
  {
    forall s | s in t.Subnets() ensures s.segmentId != v.id {
      if s.segmentId == v.id {
        var k := SubnetOfItsSegment(t, v, s);
        TransportInNoDomain(t, v, k);
      }
    }
  }

  lemma UnblockedNotPlaced(t: Translation, v: SegmentView, k: nat)
    requires t.Valid() && NamesApart(t) && v in t.segments && k < |t.domains| && v in t.domains[k].segments
    requires t.covers[k].None?
    ensures NoSubnet(t, v)
  {
    forall s | s in t.Subnets() ensures s.segmentId != v.id {
      if s.segmentId == v.id {
        var j := SubnetOfItsSegment(t, v, s);
        PlacedAlike(t, v, j, k);
      }
    }
  }

  // ---------- Subnets stay inside their network ----------

  lemma NetworkFound(t: Translation, k: nat)
    requires Accepted(t) && k < |t.domains| && t.covers[k].Some?
    ensures NetworkById(t.Networks(), NetworkId(t.arch, t.domains[k].routerId, t.names))
            == Some(NetworkFor(t.arch, t.domains[k].routerId, t.covers[k].value, t.names))
  {
    var n := NetworkFor(t.arch, t.domains[k].routerId, t.covers[k].value, t.names);
    NetworkListed(t.arch, t.domains, t.covers, t.names, k);
    DistinctResources(t.Infra());
    SoleNetwork(t.Networks(), n);
  }

  lemma SoleNetwork(networks: seq<VirtualNetwork>, n: VirtualNetwork)
    requires n in networks && forall j, k :: 0 <= j < k < |networks| ==> networks[j].id != networks[k].id
    ensures NetworkById(networks, n.id) == Some(n)
  {
    var found := NetworkById(networks, n.id);
    var j :| 0 <= j < |networks| && networks[j] == n;
    var k :| 0 <= k < |networks| && networks[k] == found.value;
  }

  lemma SoleSubnet(subnets: seq<Subnet>, s: Subnet)
    requires s in subnets && forall j, k :: 0 <= j < k < |subnets| ==> subnets[j].id != subnets[k].id
    ensures SubnetById(subnets, s.id) == Some(s)
  {
    var found := SubnetById(subnets, s.id);
    var j :| 0 <= j < |subnets| && subnets[j] == s;
    var k :| 0 <= k < |subnets| && subnets[k] == found.value;
  }

  lemma CoverHolds(t: Translation, v: SegmentView, k: nat)
    requires t.Valid() && Placed(t, v, k)
    ensures t.covers[k].value.version.V4?
    ensures v.subnet.IsSubnetOf(t.covers[k].value) <==> v.subnet.version.V4?
  {
    CoverAt(t.covers, t.domains, k);
    var j :| 0 <= j < |t.domains[k].segments| && t.domains[k].segments[j] == v;
    assert SubnetsIn(t.domains[k].segments)[j] == v.subnet;
  }

  /** A subnet is outside its network exactly when it is IPv6: the covering block is always IPv4. */
  lemma OutsideIffIPv6(t: Translation, s: Subnet)
    requires Accepted(t) && s in t.Subnets()
    ensures OutsideItsNetwork(s, t.Networks()) <==> s.cidr.version.V6?
  {
    var v, k := SubnetOrigin(t, s);
    NetworkFound(t, k);
    CoverHolds(t, v, k);
  }

  /** A domain with an IPv4 segment and an IPv6 one. */
  predicate IsMixed(d: Domain) {
    HasIPv4(SubnetsIn(d.segments)) && exists v <- d.segments :: v.subnet.version.V6?
  }

  lemma SubnetOfMixed(t: Translation, s: Subnet)
    requires t.Valid() && s in t.Subnets() && s.cidr.version.V6?
    ensures exists d <- t.domains :: IsMixed(d)
  {
    var v, k := SubnetOrigin(t, s);
    CoverAt(t.covers, t.domains, k);
    assert v in t.domains[k].segments && IsMixed(t.domains[k]);
  }

  lemma MixedHasSubnet(t: Translation, d: Domain) returns (s: Subnet)
    requires t.Valid() && d in t.domains && IsMixed(d)
    ensures s in t.Subnets() && s.cidr.version.V6?
  {
    var k :| 0 <= k < |t.domains| && t.domains[k] == d;
    var v :| v in d.segments && v.subnet.version.V6?;
    CoverAt(t.covers, t.domains, k);
    SubnetListed(t, k, v);
    s := SubnetIn(t, v, k);
  }

  /** The subnet validator finds a subnet outside its network exactly when some domain has both an
      IPv4 segment and an IPv6 one. */
  lemma SubnetsStayInside(t: Translation, issues: seq<Issue>)
    requires Accepted(t) && SubnetReport(issues, t.Infra())
    ensures (exists i <- issues :: i.SubnetOutsideNetwork?) <==> exists d <- t.domains :: IsMixed(d)
  {
    if i :| i in issues && i.SubnetOutsideNetwork? {
      var s := OutsideSubnet(issues, t.Infra(), i);
      OutsideIffIPv6(t, s);
      SubnetOfMixed(t, s);
    }
    if d :| d in t.domains && IsMixed(d) {
      var s := MixedHasSubnet(t, d);
      OutsideIffIPv6(t, s);
      OutsideReported(issues, t.Infra(), s);
    }
  }

  lemma OutsideSubnet(issues: seq<Issue>, infra: Infrastructure, i: Issue) returns (s: Subnet)
    requires SubnetReport(issues, infra) && i in issues && i.SubnetOutsideNetwork?
    ensures s in infra.subnets && OutsideItsNetwork(s, infra.networks)
  {
    assert SubnetIssue(i, infra.subnets, infra.networks);
    s :| s in infra.subnets && OutsideItsNetwork(s, infra.networks);
  }

  lemma OutsideReported(issues: seq<Issue>, infra: Infrastructure, s: Subnet)
    requires SubnetReport(issues, infra) && s in infra.subnets && OutsideItsNetwork(s, infra.networks)
    ensures SubnetOutsideNetwork(s.id, s.networkId) in issues
  {
    assert SubnetIssue(SubnetOutsideNetwork(s.id, s.networkId), infra.subnets, infra.networks);
  }

  predicate IsIPv4(arch: NetworkArchitecture) {
    forall i <- arch.interfaces, a <- i.addresses :: a.address.version.V4?
  }

  /** An IPv4 network is never reported for a subnet outside its VPC. */
  lemma IPv4StaysInside(t: Translation, issues: seq<Issue>)
    requires Accepted(t) && SubnetReport(issues, t.Infra())
    requires IsIPv4(t.arch)
    ensures forall i <- issues :: !i.SubnetOutsideNetwork?
  {
    SubnetsStayInside(t, issues);
    forall d | d in t.domains ensures !IsMixed(d) {
      IPv4NotMixed(t, d);
    }
  }

  lemma IPv4NotMixed(t: Translation, d: Domain)
    requires t.Valid() && d in t.domains
    requires IsIPv4(t.arch)
    ensures !IsMixed(d)
  {
    var k :| 0 <= k < |t.domains| && t.domains[k] == d;
    forall v | v in d.segments ensures v.subnet.version.V4? {
      InDomain(t, k, v);
      SegmentIsAddressed(t, v);
    }
  }

  lemma SegmentIsAddressed(t: Translation, v: SegmentView)
    requires t.Valid() && v in t.segments
    requires IsIPv4(t.arch)
    ensures v.subnet.version.V4?
  {
    var k :| 0 <= k < |t.segments| && t.segments[k] == v;
    assert HasSubnet(t.found, t.found[k].subnet);
    var i :| i in t.arch.interfaces && IsOn(i, v.subnet);
    FirstSubnetVersion(i.addresses);
  }

  lemma {:induction false} FirstSubnetVersion(addresses: seq<IPAddressSpec>)
    requires FirstSubnetOf(addresses).Some? && forall a <- addresses :: a.address.version.V4?
    ensures FirstSubnetOf(addresses).value.version.V4?
  {
    if addresses[0].prefixLength.None? {
      FirstSubnetVersion(addresses[1..]);
    }
  }

  // ---------- Placement of interfaces ----------

  /** An interface is placed in its own segment's subnet. */
  lemma PlacementFrom(t: Translation, i: Interface) returns (v: SegmentView, k: nat)
    requires t.Valid() && NamesApart(t) && i in t.arch.interfaces && Placement(i, t.segments, t.Subnets()).Some?
    ensures v in t.segments && Placed(t, v, k) && IsOn(i, v.subnet) && i.nodeId in v.nodeIds
    ensures Placement(i, t.segments, t.Subnets()) == Some(SubnetIn(t, v, k))
  {
    if i.FirstSubnet().None? {
      InterfaceInNoSegment(t, i);
    }
    v := InterfaceInOneSegment(t, i);
    k := SubnetOfItsSegment(t, v, Placement(i, t.segments, t.Subnets()).value);
  }

  lemma {:induction false} NicFrom(t: Translation, node: Node, own: seq<Interface>, nic: NetworkInterface)
    returns (i: Interface)
    requires |t.covers| == |t.domains| && nic in NicsOf(node, own, t.segments, t.Subnets(), t.names)
    ensures i in own && Placement(i, t.segments, t.Subnets()).Some?
    ensures nic == NicFor(node, i, Placement(i, t.segments, t.Subnets()).value.id, nic.primary, t.names)
  {
    var front := own[..|own| - 1];
    if nic in NicsOf(node, front, t.segments, t.Subnets(), t.names) {
      i := NicFrom(t, node, front, nic);
    } else {
      i := own[|own| - 1];
    }
  }

  lemma {:induction false} NicWhen(t: Translation, node: Node, own: seq<Interface>, i: Interface)
    returns (nic: NetworkInterface)
    requires |t.covers| == |t.domains| && i in own && Placement(i, t.segments, t.Subnets()).Some?
    ensures nic in NicsOf(node, own, t.segments, t.Subnets(), t.names)
    ensures nic == NicFor(node, i, Placement(i, t.segments, t.Subnets()).value.id, nic.primary, t.names)
  {
    var front, last := own[..|own| - 1], own[|own| - 1];
    if i in front {
      nic := NicWhen(t, node, front, i);
    } else {
      nic := NicFor(node, last, Placement(i, t.segments, t.Subnets()).value.id, |own| == 1, t.names);
    }
  }

  lemma {:induction false} InterfacesOfMeans(interfaces: seq<Interface>, nodeId: string, i: Interface)
    ensures i in InterfacesOf(interfaces, nodeId) <==> i in interfaces && i.nodeId == nodeId
  {
    if interfaces != [] {
      InterfacesOfMeans(interfaces[..|interfaces| - 1], nodeId, i);
      assert i in interfaces <==> i in interfaces[..|interfaces| - 1] || i == interfaces[|interfaces| - 1];
    }
  }

  function Nics(t: Translation, node: Node): seq<NetworkInterface>
    requires |t.covers| == |t.domains|
  {
    NicsIn(t.arch, node, t.segments, t.Subnets(), t.names)
  }

  lemma {:induction false} InstanceFrom(t: Translation, nodes: seq<Node>, c: ComputeInstance) returns (node: Node)
    requires |t.covers| == |t.domains|
    requires c in InstancesOf(t.arch, nodes, t.plan, t.segments, t.Subnets(), GroupIds(t.Groups()), t.names)
    ensures node in nodes && KindOf(node, t.plan) == Some(Compute) && Nics(t, node) != []
    ensures c == InstanceFor(node, t.plan, Nics(t, node), GroupIds(t.Groups()), t.names)
  {
    var front := nodes[..|nodes| - 1];
    if c in InstancesOf(t.arch, front, t.plan, t.segments, t.Subnets(), GroupIds(t.Groups()), t.names) {
      node := InstanceFrom(t, front, c);
    } else {
      node := nodes[|nodes| - 1];
    }
  }

  lemma {:induction false} InstanceWhen(t: Translation, nodes: seq<Node>, node: Node)
    requires |t.covers| == |t.domains|
    requires node in nodes && KindOf(node, t.plan) == Some(Compute) && Nics(t, node) != []
    ensures InstanceFor(node, t.plan, Nics(t, node), GroupIds(t.Groups()), t.names)
            in InstancesOf(t.arch, nodes, t.plan, t.segments, t.Subnets(), GroupIds(t.Groups()), t.names)
  {
    var front, last := nodes[..|nodes| - 1], nodes[|nodes| - 1];
    if node in front {
      InstanceWhen(t, front, node);
    } else {
      assert node == last;
    }
  }

  // ---------- Placement against the placement validator ----------

  /** Whatever the plan, no instance is left unplaced, and no forwarder keeps the check that
      would drop traffic not addressed to it. */
  lemma NeverUnplaced(t: Translation, issues: seq<Issue>)
    requires t.Valid() && PlacementReport(issues, t.Infra())
    ensures forall i <- issues :: !i.ComputeNotPlaced? && !i.ForwarderWithSourceDestCheck?
  {
    var compute, subnets := t.Instances(), t.Subnets();
    forall i | i in issues ensures !i.ComputeNotPlaced? && !i.ForwarderWithSourceDestCheck? {
      assert PlacementIssueBefore(i, compute, subnets, |compute|);
      var k :| 0 <= k < |compute| && PlacementIssueAt(i, compute, subnets, k);
      InstanceSound(t, compute[k]);
      SoundInstanceIssue(i, compute, subnets, k);
    }
  }

  lemma SoundInstanceIssue(i: Issue, compute: seq<ComputeInstance>, subnets: seq<Subnet>, k: nat)
    requires k < |compute| && PlacementIssueAt(i, compute, subnets, k) && IsPlaced(compute[k])
    requires compute[k].isForwarder ==> forall nic <- compute[k].interfaces :: !nic.sourceDestCheck
    ensures !i.ComputeNotPlaced? && !i.ForwarderWithSourceDestCheck?
  {
    SomeNicIssueMeans(i, compute[k].id, compute[k].interfaces, subnets);
  }

  lemma InstanceSound(t: Translation, c: ComputeInstance)
    requires t.Valid() && c in t.Instances()
    ensures IsPlaced(c)
    ensures c.isForwarder ==> forall nic <- c.interfaces :: !nic.sourceDestCheck
  {
    var node := InstanceFrom(t, t.arch.nodes, c);
    forall nic | nic in c.interfaces && c.isForwarder ensures !nic.sourceDestCheck {
      var i := NicFrom(t, node, InterfacesOf(t.arch.interfaces, node.id), nic);
    }
  }

  /** The interface's first address lies outside the subnet of its first address with a prefix. */
  predicate StraysFromSubnet(i: Interface) {
    i.addresses != [] && i.FirstSubnet().Some? && !i.FirstSubnet().value.Contains(i.addresses[0].address)
  }

  /** A component that becomes an instance has a placed interface that strays. */
  predicate IsMisaddressed(t: Translation, node: Node, i: Interface)
    requires |t.covers| == |t.domains|
  {
    BecomesCompute(t.plan, node) && i.nodeId == node.id && HasSubnetFor(t, i) && StraysFromSubnet(i)
  }

  /** The interface behind an instance's interface, and the subnet it was placed in. */
  lemma NicOrigin(t: Translation, c: ComputeInstance, nic: NetworkInterface)
    returns (node: Node, i: Interface, v: SegmentView, k: nat)
    requires Accepted(t) && NamesApart(t) && c in t.Instances() && nic in c.interfaces
    ensures node in t.arch.nodes && KindOf(node, t.plan) == Some(Compute) && c.sourceNodeId == node.id
    ensures i in t.arch.interfaces && i.nodeId == node.id && node.id in v.nodeIds
    ensures v in t.segments && Placed(t, v, k) && IsOn(i, v.subnet)
    ensures Placement(i, t.segments, t.Subnets()) == Some(SubnetIn(t, v, k))
    ensures SubnetById(t.Subnets(), nic.subnetId) == Some(SubnetIn(t, v, k))
    ensures nic == NicFor(node, i, SubnetIn(t, v, k).id, nic.primary, t.names)
  {
    node := InstanceFrom(t, t.arch.nodes, c);
    i := NicFrom(t, node, InterfacesOf(t.arch.interfaces, node.id), nic);
    InterfacesOfMeans(t.arch.interfaces, node.id, i);
    v, k := PlacementFrom(t, i);
    IdsApart(t);
    SoleSubnet(t.Subnets(), SubnetIn(t, v, k));
  }

  lemma StrayingReported(t: Translation, issues: seq<Issue>, node: Node, i: Interface)
    requires Accepted(t) && NamesApart(t) && PlacementReport(issues, t.Infra())
    requires node in t.arch.nodes && i in t.arch.interfaces && IsMisaddressed(t, node, i)
    ensures exists issue <- issues :: issue.AddressOutsideSubnet?
  {
    KindExactly(t.plan, node);
    PlacementExactly(t, i);
    InterfacesOfMeans(t.arch.interfaces, node.id, i);
    var nic := NicWhen(t, node, InterfacesOf(t.arch.interfaces, node.id), i);
    InstanceWhen(t, t.arch.nodes, node);
    var c := InstanceFor(node, t.plan, Nics(t, node), GroupIds(t.Groups()), t.names);
    var v, k := PlacementFrom(t, i);
    IdsApart(t);
    SoleSubnet(t.Subnets(), SubnetIn(t, v, k));
    NicReported(issues, t.Infra(), c, nic, SubnetIn(t, v, k));
  }

  lemma NicReported(issues: seq<Issue>, infra: Infrastructure, c: ComputeInstance, nic: NetworkInterface, s: Subnet)
    requires PlacementReport(issues, infra) && c in infra.compute && nic in c.interfaces && IsPlaced(c)
    requires SubnetById(infra.subnets, nic.subnetId) == Some(s)
    requires nic.privateIp.Some? && !Holds(s.cidr, nic.privateIp.value)
    ensures AddressOutsideSubnet(c.id, s.id) in issues
  {
    var issue := AddressOutsideSubnet(c.id, s.id);
    var k :| 0 <= k < |infra.compute| && infra.compute[k] == c;
    SomeNicIssueMeans(issue, c.id, c.interfaces, infra.subnets);
    PlacementIssueListed(issues, infra, issue, k);
  }

  lemma ReportedNic(issues: seq<Issue>, infra: Infrastructure, issue: Issue)
    returns (c: ComputeInstance, nic: NetworkInterface)
    requires PlacementReport(issues, infra) && issue in issues && issue.AddressOutsideSubnet?
    ensures c in infra.compute && nic in c.interfaces && NicIssue(issue, c.id, nic, infra.subnets)
  {
    var k :| 0 <= k < |infra.compute| && PlacementIssueAt(issue, infra.compute, infra.subnets, k);
    c := infra.compute[k];
    SomeNicIssueMeans(issue, c.id, c.interfaces, infra.subnets);
    nic :| nic in c.interfaces && NicIssue(issue, c.id, nic, infra.subnets);
  }

  /** The placement validator finds an address outside its subnet exactly when some placed
      interface of an instance strays. */
  lemma AddressesStayInside(t: Translation, issues: seq<Issue>)
    requires Accepted(t) && NamesApart(t) && PlacementReport(issues, t.Infra())
    ensures (exists issue <- issues :: issue.AddressOutsideSubnet?) <==>
            exists node <- t.arch.nodes, i <- t.arch.interfaces :: IsMisaddressed(t, node, i)
  {
    if issue :| issue in issues && issue.AddressOutsideSubnet? {
      var c, nic := ReportedNic(issues, t.Infra(), issue);
      var node, i, v, k := NicOrigin(t, c, nic);
      KindExactly(t.plan, node);
      PlacementExactly(t, i);
      assert IsMisaddressed(t, node, i);
    }
    if node, i :| node in t.arch.nodes && i in t.arch.interfaces && IsMisaddressed(t, node, i) {
      StrayingReported(t, issues, node, i);
    }
  }

  /** In particular never, when every interface that has an addressed subnet leads with it. */
  lemma LeadingPrefixStaysInside(t: Translation, issues: seq<Issue>)
    requires Accepted(t) && NamesApart(t) && PlacementReport(issues, t.Infra())
    requires LeadsWithPrefix(t.arch)
    ensures forall issue <- issues :: !issue.AddressOutsideSubnet?
  {
    AddressesStayInside(t, issues);
  }

  lemma HomeDomain(t: Translation, node: Node, v: SegmentView, k: nat)
    requires t.Valid() && k < |t.domains| && v in t.domains[k].segments
    requires node in t.arch.nodes && node.IsL3Forwarder() && node.id in v.nodeIds
    ensures t.domains[k].routerId == node.id
  {
    var routers := Routers(t.arch.nodes);
    RoutersAre(t.arch.nodes, node.id);
    InDomain(t, k, v);
    DomainAt(t, k);
    assert node.id in Owners(v.nodeIds, routers);
    SoleElement(Owners(v.nodeIds, routers), node.id);
  }

  /** All interfaces of a layer 3 forwarder are placed in the network of its own routed domain. */
  lemma ForwarderStaysHome(t: Translation, node: Node, c: ComputeInstance, nic: NetworkInterface)
    requires Accepted(t) && NamesApart(t) && node in t.arch.nodes && node.IsL3Forwarder()
    requires c in t.Instances() && c.sourceNodeId == node.id && nic in c.interfaces
    ensures SubnetById(t.Subnets(), nic.subnetId).Some?
    ensures SubnetById(t.Subnets(), nic.subnetId).value.networkId == NetworkId(t.arch, node.id, t.names)
  {
    var origin, i, v, k := NicOrigin(t, c, nic);
    HomeDomain(t, node, v, k);
  }

  // ---------- All claims together ----------

  predicate LeadsWithPrefix(arch: NetworkArchitecture) {
    forall i <- arch.interfaces :: i.FirstSubnet().Some? ==> i.addresses[0].prefixLength.Some?
  }

  /** The slug of an IPv4 block is that of its text. */
  ghost predicate UsesSlugs(names: Names) {
    forall s: SubnetSpec :: s.version.V4? ==> names.cidrSlug(s) == Slugify(CidrText(s))
  }

  lemma IPv4NamesApart(t: Translation)
    requires t.Valid() && IsIPv4(t.arch) && UsesSlugs(t.names)
    ensures NamesApart(t)
  {
    forall v, w | v in t.segments && w in t.segments && t.names.cidrSlug(v.subnet) == t.names.cidrSlug(w.subnet)
      ensures v.subnet == w.subnet
    {
      SegmentIsAddressed(t, v);
      SegmentIsAddressed(t, w);
      IPv4SlugsApart(v.subnet, w.subnet);
    }
  }

  /** What the assembler builds from an IPv4 network whose interfaces lead with a prefixed address
      passes every check of placement: subnets inside their network, instances placed, addresses
      inside their subnet, forwarders free to forward. */
  lemma AssemblyPassesValidators(t: Translation, subnetIssues: seq<Issue>, placementIssues: seq<Issue>)
    requires Accepted(t) && UsesSlugs(t.names) && IsIPv4(t.arch) && LeadsWithPrefix(t.arch)
    requires SubnetReport(subnetIssues, t.Infra()) && PlacementReport(placementIssues, t.Infra())
    ensures forall i <- subnetIssues :: !i.SubnetOutsideNetwork?
    ensures forall i <- placementIssues ::
              !i.ComputeNotPlaced? && !i.AddressOutsideSubnet? && !i.ForwarderWithSourceDestCheck?
  {
    IPv4NamesApart(t);
    IPv4StaysInside(t, subnetIssues);
    NeverUnplaced(t, placementIssues);
    LeadingPrefixStaysInside(t, placementIssues);
  }

  // ---------- Where the claims stop ----------

  /** An interface is placed exactly when its segment is in a domain that has a block. */
  lemma PlacedIff(t: Translation, i: Interface)
    requires t.Valid() && NamesApart(t) && i in t.arch.interfaces
    ensures Placement(i, t.segments, t.Subnets()).Some? <==>
            exists k, v | 0 <= k < |t.domains| && v in t.domains[k].segments :: Placed(t, v, k) && IsOn(i, v.subnet)
  {
    if Placement(i, t.segments, t.Subnets()).Some? {
      var v, k := PlacementFrom(t, i);
    }
    if k, v :| 0 <= k < |t.domains| && v in t.domains[k].segments && Placed(t, v, k) && IsOn(i, v.subnet) {
      PlacementWhen(t, i, v, k);
    }
  }

  lemma PlacementWhen(t: Translation, i: Interface, v: SegmentView, k: nat)
    requires t.Valid() && NamesApart(t) && i in t.arch.interfaces && Placed(t, v, k) && IsOn(i, v.subnet)
    ensures Placement(i, t.segments, t.Subnets()) == Some(SubnetIn(t, v, k))
  {
    InDomain(t, k, v);
    var w := InterfaceInOneSegment(t, i);
    SameSegment(t, v, w);
    SubnetListed(t, k, v);
    var found := SubnetOfSegment(t.Subnets(), v.id);
    SameSubnetOf(t, v, k, found.value);
  }

  lemma SubnetKnown(t: Translation, s: Subnet)
    requires t.Valid() && s in t.Subnets()
    ensures NetworkById(t.Networks(), s.networkId).Some?
  {
    var v, k := SubnetOrigin(t, s);
    NetworkListed(t.arch, t.domains, t.covers, t.names, k);
  }

  lemma InstanceKnown(t: Translation, c: ComputeInstance)
    requires t.Valid() && c in t.Instances()
    ensures c.subnetId.Some? && SubnetById(t.Subnets(), c.subnetId.value).Some?
    ensures forall nic <- c.interfaces :: SubnetById(t.Subnets(), nic.subnetId).Some?
  {
    var node := InstanceFrom(t, t.arch.nodes, c);
    forall nic | nic in c.interfaces ensures SubnetById(t.Subnets(), nic.subnetId).Some? {
      var i := NicFrom(t, node, InterfacesOf(t.arch.interfaces, node.id), nic);
    }
    assert c.interfaces[0] in c.interfaces;
  }

  /** Construction of the assembled architecture raises exactly when two resource ids coincide:
      every reference it checks holds by itself. */
  lemma AcceptedIffIdsDistinct(t: Translation)
    requires t.Valid()
    ensures Admissible(t.Infra()) <==> AllDistinct(t.Infra().ResourceIds())
  {
    forall s | s in t.Subnets() ensures NetworkById(t.Networks(), s.networkId).Some? {
      SubnetKnown(t, s);
    }
    forall c | c in t.Instances()
      ensures c.subnetId.Some? && SubnetById(t.Subnets(), c.subnetId.value).Some?
      ensures forall nic <- c.interfaces :: SubnetById(t.Subnets(), nic.subnetId).Some?
    {
      InstanceKnown(t, c);
    }
  }
}
