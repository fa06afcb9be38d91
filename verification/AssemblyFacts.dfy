/**
 What an assembly contains: which interfaces a segment holds, which domain a segment goes to,
 and which networks and subnets come of it. Conservation: no addressed interface and no segment
 is lost or counted twice.
 */
module AssemblyFacts {
  import opened Wrappers
  import opened Addressing
  import opened NetworkModel
  import opened CloudModel
  import opened Sorting
  import opened Segments
  import opened CloudAssembler

  // ---------- Segments and interfaces ----------

  lemma {:induction false} GroupHolds(interfaces: seq<Interface>, subnet: SubnetSpec, names: Names, i: Interface)
    requires i in interfaces && IsOn(i, subnet)
    ensures i.id in GroupOf(interfaces, subnet, names).interfaceIds
    ensures i.nodeId in GroupOf(interfaces, subnet, names).nodeIds
  {
    var front, last := interfaces[..|interfaces| - 1], interfaces[|interfaces| - 1];
    if i in front {
      GroupHolds(front, subnet, names, i);
    } else {
      assert i == last;
    }
  }

  lemma {:induction false} GroupHoldsOnly(interfaces: seq<Interface>, subnet: SubnetSpec, names: Names, id: string)
    requires id in GroupOf(interfaces, subnet, names).interfaceIds
    ensures exists i <- interfaces :: IsOn(i, subnet) && i.id == id
  {
    var front, last := interfaces[..|interfaces| - 1], interfaces[|interfaces| - 1];
    if !(IsOn(last, subnet) && last.id == id) {
      GroupHoldsOnly(front, subnet, names, id);
      var i :| i in front && IsOn(i, subnet) && i.id == id;
      assert i in interfaces;
    }
  }

  lemma {:induction false} NodesStay(v: SegmentView, nodes: seq<Node>, edges: seq<Edge>)
    ensures v.nodeIds <= AfterNodes(v, nodes, edges).nodeIds
  {
    if nodes != [] {
      NodesStay(v, nodes[..|nodes| - 1], edges);
    }
  }

  /** The only nodes that join a segment without an interface on it are its switches. */
  lemma {:induction false} JoinersAreSwitches(v: SegmentView, nodes: seq<Node>, edges: seq<Edge>, id: string)
    requires id in AfterNodes(v, nodes, edges).nodeIds && id !in v.nodeIds
    ensures exists n <- nodes :: n.id == id && n.IsL2()
  {
    var front, last := nodes[..|nodes| - 1], nodes[|nodes| - 1];
    if id in AfterNodes(v, front, edges).nodeIds {
      JoinersAreSwitches(v, front, edges, id);
      var n :| n in front && n.id == id && n.IsL2();
      assert n in nodes;
    } else {
      assert last.id == id && last.IsL2();
    }
  }

  lemma SegmentIs(t: Translation, v: SegmentView)
    requires t.Valid() && v in t.segments
    ensures v == Marked(SegmentOf(t.arch, v.subnet, t.names), Routers(t.arch.nodes))
    ensures v.id == t.names.SegmentId(v.subnet)
    ensures v.isTransport <==> |Owners(v.nodeIds, Routers(t.arch.nodes))| > 1
  {
    var k :| 0 <= k < |t.segments| && t.segments[k] == v;
    assert t.found[k] == SegmentOf(t.arch, v.subnet, t.names);
    AfterNodesFresh(GroupOf(t.arch.interfaces, v.subnet, t.names), t.arch.nodes, t.arch.edges);
  }

  lemma {:induction false} AfterNodesFresh(v: SegmentView, nodes: seq<Node>, edges: seq<Edge>)
    ensures AfterNodes(v, nodes, edges).isTransport == v.isTransport
  {
    if nodes != [] {
      AfterNodesFresh(v, nodes[..|nodes| - 1], edges);
    }
  }

  lemma SegmentHolds(t: Translation, v: SegmentView, i: Interface)
    requires t.Valid() && v in t.segments && i in t.arch.interfaces
    ensures i.id in v.interfaceIds <==> IsOn(i, v.subnet)
    ensures IsOn(i, v.subnet) ==> i.nodeId in v.nodeIds
  {
    SegmentIs(t, v);
    var group := GroupOf(t.arch.interfaces, v.subnet, t.names);
    if IsOn(i, v.subnet) {
      GroupHolds(t.arch.interfaces, v.subnet, t.names, i);
      NodesStay(group, t.arch.nodes, t.arch.edges);
    }
    if i.id in v.interfaceIds {
      GroupHoldsOnly(t.arch.interfaces, v.subnet, t.names, i.id);
      var j :| j in t.arch.interfaces && IsOn(j, v.subnet) && j.id == i.id;
      SameInterface(t.arch, i, j);
    }
  }

  lemma SameInterface(arch: NetworkArchitecture, i: Interface, j: Interface)
    requires arch.WellFormed() && i in arch.interfaces && j in arch.interfaces && i.id == j.id
    ensures i == j
  {
    var a :| 0 <= a < |arch.interfaces| && arch.interfaces[a] == i;
    var b :| 0 <= b < |arch.interfaces| && arch.interfaces[b] == j;
  }

  lemma SameSegment(t: Translation, v: SegmentView, w: SegmentView)
    requires t.Valid() && v in t.segments && w in t.segments && v.subnet == w.subnet
    ensures v == w
  {
    SegmentIs(t, v);
    SegmentIs(t, w);
  }

  lemma OnlySegment(t: Translation, i: Interface, v: SegmentView, w: SegmentView)
    requires t.Valid() && i in t.arch.interfaces && v in t.segments && w in t.segments
    requires i.id in v.interfaceIds && i.id in w.interfaceIds
    ensures v == w
  {
    SegmentHolds(t, v, i);
    SegmentHolds(t, w, i);
    SameSegment(t, v, w);
  }

  lemma SegmentOn(t: Translation, subnet: SubnetSpec) returns (v: SegmentView)
    requires t.Valid() && exists i <- t.arch.interfaces :: IsOn(i, subnet)
    ensures v in t.segments && v.subnet == subnet
  {
    assert HasSubnet(t.found, subnet);
    var k :| 0 <= k < |t.found| && t.found[k].subnet == subnet;
    v := t.segments[k];
  }

  /** Every interface with a prefixed address is in one segment, and in no other; the segment
      also has its node. */
  lemma InterfaceInOneSegment(t: Translation, i: Interface) returns (v: SegmentView)
    requires t.Valid() && i in t.arch.interfaces && i.FirstSubnet().Some?
    ensures v in t.segments && v.subnet == i.FirstSubnet().value && i.id in v.interfaceIds && i.nodeId in v.nodeIds
    ensures forall w <- t.segments :: i.id in w.interfaceIds ==> w == v
    ensures SegmentWith(t.segments, i.id) == Some(v)
  {
    assert IsOn(i, i.FirstSubnet().value);
    v := SegmentOn(t, i.FirstSubnet().value);
    SegmentHolds(t, v, i);
    forall w | w in t.segments && i.id in w.interfaceIds ensures w == v {
      OnlySegment(t, i, v, w);
    }
  }

  lemma InterfaceInNoSegment(t: Translation, i: Interface)
    requires t.Valid() && i in t.arch.interfaces && i.FirstSubnet().None?
    ensures SegmentWith(t.segments, i.id) == None
  {
    var found := SegmentWith(t.segments, i.id);
    if found.Some? {
      SegmentHolds(t, found.value, i);
    }
  }

  // ---------- Domains ----------

  lemma RoutersAre(nodes: seq<Node>, id: string)
    ensures id in Routers(nodes) <==> exists n <- nodes :: n.IsL3Forwarder() && n.id == id
  {
    assert id in Routers(nodes) <==> id in multiset(Routers(nodes));
    assert id in ForwarderIds(nodes) <==> id in multiset(ForwarderIds(nodes));
  }

  lemma SoleOwner(nodeIds: set<string>, routers: seq<string>, a: string, b: string)
    requires routers != [] && OwnedBy(nodeIds, a, routers) && OwnedBy(nodeIds, b, routers)
    ensures a == b
  {
    var owners := Owners(nodeIds, routers);
    if owners != {} {
      SoleElement(owners, a);
    }
  }

  lemma OwnerExists(nodeIds: set<string>, routers: seq<string>) returns (k: nat)
    requires routers != [] && |Owners(nodeIds, routers)| <= 1
    ensures k < |routers| && OwnedBy(nodeIds, routers[k], routers)
  {
    var owners := Owners(nodeIds, routers);
    k := 0;
    if owners != {} {
      var owner :| owner in owners;
      k :| 0 <= k < |routers| && routers[k] == owner;
    }
  }

  lemma DomainAt(t: Translation, k: nat)
    requires t.Valid() && k < |t.domains|
    ensures var routers := Routers(t.arch.nodes);
            t.domains[k] == if routers == [] then Domain(IMPLICIT, t.segments) else DomainOf(t.segments, routers[k], routers)
  {
  }

  lemma InDomain(t: Translation, k: nat, v: SegmentView)
    requires t.Valid() && k < |t.domains|
    ensures var routers := Routers(t.arch.nodes);
            v in t.domains[k].segments <==>
            v in t.segments && (routers == [] || OwnedBy(v.nodeIds, routers[k], routers))
  {
    var routers := Routers(t.arch.nodes);
    DomainAt(t, k);
    if routers != [] {
      OwnedAmongMeans(t.segments, routers[k], routers, v);
    }
  }

  /** A segment on two or more forwarders goes to no domain. */
  lemma TransportInNoDomain(t: Translation, v: SegmentView, k: nat)
    requires t.Valid() && v in t.segments && v.isTransport && k < |t.domains|
    ensures v !in t.domains[k].segments
  {
    SegmentIs(t, v);
    InDomain(t, k, v);
  }

  /** Every other segment goes to exactly one. */
  lemma SegmentInOneDomain(t: Translation, v: SegmentView) returns (k: nat)
    requires t.Valid() && v in t.segments && !v.isTransport
    ensures k < |t.domains| && v in t.domains[k].segments
    ensures forall j | 0 <= j < |t.domains| && v in t.domains[j].segments :: t.domains[j] == t.domains[k]
  {
    var routers := Routers(t.arch.nodes);
    SegmentIs(t, v);
    k := 0;
    if routers != [] {
      k := OwnerExists(v.nodeIds, routers);
    }
    InDomain(t, k, v);
    forall j | 0 <= j < |t.domains| && v in t.domains[j].segments ensures t.domains[j] == t.domains[k] {
      InDomain(t, j, v);
      DomainAt(t, j);
      DomainAt(t, k);
      if routers != [] {
        SoleOwner(v.nodeIds, routers, routers[j], routers[k]);
      }
    }
  }

  // ---------- Networks and subnets ----------

  lemma {:induction false} NetworkListed(arch: NetworkArchitecture, domains: seq<Domain>, covers: seq<Cover>, names: Names,
                                         k: nat)
    requires |covers| == |domains| && k < |domains| && covers[k].Some?
    ensures NetworkFor(arch, domains[k].routerId, covers[k].value, names) in NetworksOf(arch, domains, covers, names)
  {
    var last := |domains| - 1;
    if k < last {
      NetworkListed(arch, domains[..last], covers[..last], names, k);
    }
  }

  lemma {:induction false} NetworkFrom(arch: NetworkArchitecture, domains: seq<Domain>, covers: seq<Cover>, names: Names,
                                       n: VirtualNetwork) returns (k: nat)
    requires |covers| == |domains| && n in NetworksOf(arch, domains, covers, names)
    ensures k < |domains| && covers[k].Some? && n == NetworkFor(arch, domains[k].routerId, covers[k].value, names)
  {
    var last := |domains| - 1;
    if n in NetworksOf(arch, domains[..last], covers[..last], names) {
      k := NetworkFrom(arch, domains[..last], covers[..last], names, n);
    } else {
      k := last;
    }
  }

  lemma SegmentListed(segments: seq<SegmentView>, networkId: string, names: Names, v: SegmentView)
    requires v in segments
    ensures SubnetFor(v, networkId, names) in SubnetsFor(segments, networkId, names)
  {
    var j :| 0 <= j < |segments| && segments[j] == v;
    assert SubnetsFor(segments, networkId, names)[j] == SubnetFor(v, networkId, names);
  }

  /** What a domain contributes is among all subnets. */
  lemma {:induction false} DomainSubnetListed(arch: NetworkArchitecture, domains: seq<Domain>, covers: seq<Cover>,
                                              names: Names, k: nat, d: Domain, c: Cover, s: Subnet)
    requires |covers| == |domains| && k < |domains| && domains[k] == d && covers[k] == c
    requires s in DomainSubnets(arch, d, c, names)
    ensures s in AllSubnets(arch, domains, covers, names)
  {
    var last := |domains| - 1;
    if k < last {
      DomainSubnetListed(arch, domains[..last], covers[..last], names, k, d, c, s);
    }
  }

  lemma SubnetListed(t: Translation, k: nat, v: SegmentView)
    requires |t.covers| == |t.domains| && k < |t.domains| && t.covers[k].Some? && v in t.domains[k].segments
    ensures SubnetFor(v, NetworkId(t.arch, t.domains[k].routerId, t.names), t.names) in t.Subnets()
  {
    var id := NetworkId(t.arch, t.domains[k].routerId, t.names);
    SegmentListed(t.domains[k].segments, id, t.names, v);
    DomainSubnetListed(t.arch, t.domains, t.covers, t.names, k, t.domains[k], t.covers[k], SubnetFor(v, id, t.names));
  }

  lemma {:induction false} SubnetFrom(arch: NetworkArchitecture, domains: seq<Domain>, covers: seq<Cover>, names: Names,
                                      s: Subnet) returns (k: nat, v: SegmentView)
    requires |covers| == |domains| && s in AllSubnets(arch, domains, covers, names)
    ensures k < |domains| && covers[k].Some? && v in domains[k].segments
    ensures s == SubnetFor(v, NetworkId(arch, domains[k].routerId, names), names)
  {
    var last := |domains| - 1;
    if s in AllSubnets(arch, domains[..last], covers[..last], names) {
      k, v := SubnetFrom(arch, domains[..last], covers[..last], names, s);
    } else {
      k := last;
      var own := DomainSubnets(arch, domains[k], covers[k], names);
      var j :| 0 <= j < |own| && own[j] == s;
      v := domains[k].segments[j];
    }
  }

  lemma {:induction false} NoBlockListed(domains: seq<Domain>, covers: seq<Cover>, k: nat)
    requires |covers| == |domains| && k < |domains| && covers[k].None? && domains[k].segments != []
    ensures NoBlock(domains[k].routerId) in NoBlocks(domains, covers)
  {
    var last := |domains| - 1;
    if k < last {
      NoBlockListed(domains[..last], covers[..last], k);
    }
  }

  lemma {:induction false} TransportListed(segments: seq<SegmentView>, v: SegmentView)
    requires v in segments && v.isTransport
    ensures TransportLink(v.subnet) in TransportLinks(segments)
  {
    var front := segments[..|segments| - 1];
    if v in front {
      TransportListed(front, v);
    } else {
      assert v == segments[|segments| - 1];
    }
  }

  // ---------- What computes, and what is placed ----------

  /** The plan says so, or says nothing usable and the device is one that computes. */
  predicate BecomesCompute(plan: Plan, node: Node) {
    if node.id in plan.entries && plan.entries[node.id].kind.Some? then plan.entries[node.id].kind == Some(Compute)
    else
      || node.kind == Server || node.kind == Pc || node.kind == NodeType.DatabaseServer || node.kind == Storage
      || node.kind == Router || node.kind == GatewayDevice
  }

  lemma KindExactly(plan: Plan, node: Node)
    ensures KindOf(node, plan) == Some(Compute) <==> BecomesCompute(plan, node)
  {
  }

  /** The interface is on a segment that became a subnet. */
  predicate HasSubnetFor(t: Translation, i: Interface)
    requires |t.covers| == |t.domains|
  {
    exists v <- t.segments, s <- t.Subnets() :: i.id in v.interfaceIds && s.segmentId == v.id
  }

  lemma PlacementExactly(t: Translation, i: Interface)
    requires t.Valid() && i in t.arch.interfaces
    ensures Placement(i, t.segments, t.Subnets()).Some? <==> HasSubnetFor(t, i)
  {
    var v := SegmentWith(t.segments, i.id);
    if w, s :| w in t.segments && s in t.Subnets() && i.id in w.interfaceIds && s.segmentId == w.id {
      OnlySegment(t, i, v.value, w);
    }
  }

  // ---------- Security groups ----------

  function FirewallCount(nodes: seq<Node>): nat {
    if nodes == [] then 0
    else FirewallCount(nodes[..|nodes| - 1]) + if nodes[|nodes| - 1].kind.Firewall? then 1 else 0
  }

  /** There is one group for each firewall, and every group is that of a firewall. */
  lemma {:induction false} GroupsAreFirewalls(nodes: seq<Node>, plan: Plan, networkId: string, names: Names, g: SecurityGroup)
    ensures g in GroupsOf(nodes, plan, networkId, names)
            <==> exists n <- nodes :: n.kind.Firewall? && g == GroupFor(n, plan, networkId, names)
    ensures |GroupsOf(nodes, plan, networkId, names)| == FirewallCount(nodes)
  {
    if nodes != [] {
      var front, last := nodes[..|nodes| - 1], nodes[|nodes| - 1];
      GroupsAreFirewalls(front, plan, networkId, names, g);
      assert forall n :: n in nodes <==> n in front || n == last;
    }
  }

  // ---------- Distinct ids ----------

  lemma DistinctResources(infra: Infrastructure)
    requires AllDistinct(infra.ResourceIds())
    ensures forall j, k :: 0 <= j < k < |infra.networks| ==> infra.networks[j].id != infra.networks[k].id
    ensures forall j, k :: 0 <= j < k < |infra.subnets| ==> infra.subnets[j].id != infra.subnets[k].id
  {
    var ids := infra.ResourceIds();
    forall j, k | 0 <= j < k < |infra.networks| ensures infra.networks[j].id != infra.networks[k].id {
      assert ids[j] == infra.networks[j].id && ids[k] == infra.networks[k].id;
    }
    var n := |infra.networks|;
    forall j, k | 0 <= j < k < |infra.subnets| ensures infra.subnets[j].id != infra.subnets[k].id {
      assert ids[n + j] == infra.subnets[j].id && ids[n + k] == infra.subnets[k].id;
    }
  }
}
