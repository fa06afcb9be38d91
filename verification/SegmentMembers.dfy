/**
 Who is on a segment, said of the network alone: the interfaces whose first prefixed address lies
 in the subnet, their nodes, and the switches that their links put there.
 */
module SegmentMembers {
  import opened Wrappers
  import opened Addressing
  import opened NetworkModel
  import opened Segments
  import opened CloudAssembler
  import opened AssemblyFacts

  // ---------- Interfaces ----------

  /** The address at `k` gives the subnet, and none before it has a known prefix. */
  predicate IsFirstPrefixed(addresses: seq<IPAddressSpec>, s: SubnetSpec, k: nat) {
    && k < |addresses| && addresses[k].Subnet() == Some(s)
    && forall j | 0 <= j < k :: addresses[j].prefixLength.None?
  }

  lemma LaterPrefixed(addresses: seq<IPAddressSpec>, s: SubnetSpec, k: nat)
    requires addresses != [] && addresses[0].prefixLength.None?
    ensures IsFirstPrefixed(addresses[1..], s, k) <==> IsFirstPrefixed(addresses, s, k + 1)
  {
    assert forall j | 0 <= j < |addresses| - 1 :: addresses[1..][j] == addresses[j + 1];
    if IsFirstPrefixed(addresses[1..], s, k) {
      forall j | 0 <= j < k + 1 ensures addresses[j].prefixLength.None? {
        assert j > 0 ==> addresses[1..][j - 1] == addresses[j];
      }
    }
  }

  /** The subnet of an interface is that of its first address with a known prefix. */
  lemma {:induction false} FirstSubnetMeans(addresses: seq<IPAddressSpec>, s: SubnetSpec)
    ensures FirstSubnetOf(addresses) == Some(s) <==> exists k: nat :: IsFirstPrefixed(addresses, s, k)
  {
    if addresses != [] && addresses[0].prefixLength.None? {
      FirstSubnetMeans(addresses[1..], s);
      if k: nat :| IsFirstPrefixed(addresses[1..], s, k) {
        LaterPrefixed(addresses, s, k);
      }
      if k: nat :| IsFirstPrefixed(addresses, s, k) {
        LaterPrefixed(addresses, s, k - 1);
      }
    } else if addresses != [] {
      assert addresses[0].Subnet() == Some(s) ==> IsFirstPrefixed(addresses, s, 0);
    }
  }

  /** The node has an interface on the subnet. */
  predicate HasInterfaceOn(arch: NetworkArchitecture, nodeId: string, subnet: SubnetSpec) {
    exists i <- arch.interfaces :: i.nodeId == nodeId && i.FirstSubnet() == Some(subnet)
  }

  // ---------- Links ----------

  /** An end of an edge that touches the node, at another node. */
  predicate IsFarEnd(arch: NetworkArchitecture, nodeId: string, p: LinkEndpoint) {
    p.nodeId != nodeId
    && exists e <- arch.edges :: (p == e.source && nodeId == e.target.nodeId) || (p == e.target && nodeId == e.source.nodeId)
  }

  predicate NamesInterface(p: LinkEndpoint) {
    p.interfaceId.Some? && p.interfaceId.value != ""
  }

  /** Some link of the node says which interface it ends at. */
  ghost predicate HasNamedLink(arch: NetworkArchitecture, nodeId: string) {
    exists p :: IsFarEnd(arch, nodeId, p) && NamesInterface(p)
  }

  /** Some link of the node ends at an interface on the subnet. */
  ghost predicate LinksToSubnet(arch: NetworkArchitecture, nodeId: string, subnet: SubnetSpec) {
    exists p, i :: IsFarEnd(arch, nodeId, p) && NamesInterface(p) && i in arch.interfaces
                   && i.id == p.interfaceId.value && i.FirstSubnet() == Some(subnet)
  }

  lemma {:induction false} FarEndsMean(edges: seq<Edge>, nodeId: string, x: string)
    ensures x in FarNodes(edges, nodeId) <==>
            exists e <- edges :: (e.source.nodeId == x && e.target.nodeId == nodeId && x != nodeId)
                                 || (e.target.nodeId == x && e.source.nodeId == nodeId && x != nodeId)
    ensures x in FarInterfaces(edges, nodeId) <==>
            exists e <- edges :: (NamesFar(e.source, nodeId, x) && e.target.nodeId == nodeId)
                                 || (NamesFar(e.target, nodeId, x) && e.source.nodeId == nodeId)
  {
    if edges != [] {
      var front, last := edges[..|edges| - 1], edges[|edges| - 1];
      FarEndsMean(front, nodeId, x);
      assert forall e :: e in edges <==> e in front || e == last;
    }
  }

  predicate NamesFar(p: LinkEndpoint, nodeId: string, x: string) {
    p.nodeId != nodeId && p.interfaceId == Some(x) && x != ""
  }

  lemma FarNodeIsEnd(arch: NetworkArchitecture, nodeId: string, x: string)
    ensures x in FarNodes(arch.edges, nodeId) <==> exists p :: IsFarEnd(arch, nodeId, p) && p.nodeId == x
  {
    FarEndsMean(arch.edges, nodeId, x);
    if e :| e in arch.edges && e.source.nodeId == x && e.target.nodeId == nodeId && x != nodeId {
      assert IsFarEnd(arch, nodeId, e.source);
    }
    if e :| e in arch.edges && e.target.nodeId == x && e.source.nodeId == nodeId && x != nodeId {
      assert IsFarEnd(arch, nodeId, e.target);
    }
  }

  lemma FarInterfaceIsEnd(arch: NetworkArchitecture, nodeId: string, x: string)
    ensures x in FarInterfaces(arch.edges, nodeId) <==>
            exists p :: IsFarEnd(arch, nodeId, p) && NamesInterface(p) && p.interfaceId.value == x
  {
    FarEndsMean(arch.edges, nodeId, x);
    if e :| e in arch.edges && NamesFar(e.source, nodeId, x) && e.target.nodeId == nodeId {
      assert IsFarEnd(arch, nodeId, e.source);
    }
    if e :| e in arch.edges && NamesFar(e.target, nodeId, x) && e.source.nodeId == nodeId {
      assert IsFarEnd(arch, nodeId, e.target);
    }
  }

  // ---------- Switches, in turn ----------

  /** The segment once the first `k` nodes have been considered. */
  function After(arch: NetworkArchitecture, group: SegmentView, k: nat): SegmentView
    requires k <= |arch.nodes|
  {
    AfterNodes(group, arch.nodes[..k], arch.edges)
  }

  lemma AfterStep(arch: NetworkArchitecture, group: SegmentView, k: nat)
    requires k < |arch.nodes|
    ensures After(arch, group, k + 1) == AfterNode(After(arch, group, k), arch.nodes[k], arch.edges)
  {
    assert arch.nodes[..k + 1][..k] == arch.nodes[..k];
  }

  lemma {:induction false} AfterNodeIds(arch: NetworkArchitecture, group: SegmentView, k: nat, id: string)
    requires k <= |arch.nodes| && group.switchIds == []
    ensures id in After(arch, group, k).nodeIds <==> id in group.nodeIds || id in After(arch, group, k).switchIds
    ensures id in After(arch, group, k).switchIds ==> exists j | 0 <= j < k :: arch.nodes[j].id == id
  {
    if k > 0 {
      AfterNodeIds(arch, group, k - 1, id);
      AfterStep(arch, group, k - 1);
    }
  }

  lemma {:induction false} StaysAfter(arch: NetworkArchitecture, group: SegmentView, j: nat, k: nat)
    requires arch.WellFormed() && j < k <= |arch.nodes|
    ensures arch.nodes[j].id in After(arch, group, j + 1).switchIds <==>
            arch.nodes[j].id in After(arch, group, k).switchIds
    decreases k
  {
    if k > j + 1 {
      StaysAfter(arch, group, j, k - 1);
      AfterStep(arch, group, k - 1);
      assert arch.nodes[j].id != arch.nodes[k - 1].id;
    }
  }

  lemma JoinsAtTurn(arch: NetworkArchitecture, group: SegmentView, k: nat)
    requires arch.WellFormed() && k < |arch.nodes| && group.switchIds == []
    ensures var node, before := arch.nodes[k], After(arch, group, k);
            node.id in After(arch, group, |arch.nodes|).switchIds <==>
            && (node.kind.Switch? || node.kind.AccessPoint?)
            && Attaches(before, FarInterfaces(arch.edges, node.id), FarNodes(arch.edges, node.id))
  {
    var node := arch.nodes[k];
    AfterNodeIds(arch, group, k, node.id);
    AfterStep(arch, group, k);
    StaysAfter(arch, group, k, |arch.nodes|);
  }

  lemma InterfacesStay(arch: NetworkArchitecture, group: SegmentView, k: nat)
    requires k <= |arch.nodes|
    ensures After(arch, group, k).interfaceIds == group.interfaceIds
  {
  }

  lemma GroupInterfacesExactly(arch: NetworkArchitecture, subnet: SubnetSpec, names: Names, id: string)
    ensures id in GroupOf(arch.interfaces, subnet, names).interfaceIds <==>
            exists i <- arch.interfaces :: i.id == id && i.FirstSubnet() == Some(subnet)
  {
    if id in GroupOf(arch.interfaces, subnet, names).interfaceIds {
      GroupHoldsOnly(arch.interfaces, subnet, names, id);
    }
    if i :| i in arch.interfaces && i.id == id && i.FirstSubnet() == Some(subnet) {
      GroupHolds(arch.interfaces, subnet, names, i);
    }
  }

  lemma {:induction false} GroupNodeFrom(interfaces: seq<Interface>, subnet: SubnetSpec, names: Names, id: string)
    requires id in GroupOf(interfaces, subnet, names).nodeIds
    ensures exists i <- interfaces :: IsOn(i, subnet) && i.nodeId == id
  {
    var front, last := interfaces[..|interfaces| - 1], interfaces[|interfaces| - 1];
    if !(IsOn(last, subnet) && last.nodeId == id) {
      GroupNodeFrom(front, subnet, names, id);
      var i :| i in front && IsOn(i, subnet) && i.nodeId == id;
      assert i in interfaces;
    }
  }

  lemma GroupNodesExactly(arch: NetworkArchitecture, subnet: SubnetSpec, names: Names, id: string)
    ensures id in GroupOf(arch.interfaces, subnet, names).nodeIds <==> HasInterfaceOn(arch, id, subnet)
  {
    if id in GroupOf(arch.interfaces, subnet, names).nodeIds {
      GroupNodeFrom(arch.interfaces, subnet, names, id);
    }
    if i :| i in arch.interfaces && i.nodeId == id && i.FirstSubnet() == Some(subnet) {
      GroupHolds(arch.interfaces, subnet, names, i);
    }
  }

  // ---------- The members of a segment ----------

  /** The neighbour was on the segment when the turn of the node at `k` came: it has an interface
      there, or it is a switch that comes earlier and joined. */
  predicate WasOn(t: Translation, v: SegmentView, k: nat, nodeId: string)
    requires k <= |t.arch.nodes|
  {
    || HasInterfaceOn(t.arch, nodeId, v.subnet)
    || (nodeId in v.switchIds && exists j | 0 <= j < k :: t.arch.nodes[j].id == nodeId)
  }

  /** Some link of the node at `k` ends at a node that was on the segment. */
  ghost predicate NeighbourWasOn(t: Translation, v: SegmentView, k: nat)
    requires k < |t.arch.nodes|
  {
    exists p :: IsFarEnd(t.arch, t.arch.nodes[k].id, p) && WasOn(t, v, k, p.nodeId)
  }

  lemma SegmentIsGrown(t: Translation, v: SegmentView) returns (group: SegmentView)
    requires t.Valid() && v in t.segments
    ensures group == GroupOf(t.arch.interfaces, v.subnet, t.names) && group.switchIds == []
    ensures var grown := After(t.arch, group, |t.arch.nodes|);
            v.nodeIds == grown.nodeIds && v.interfaceIds == grown.interfaceIds && v.switchIds == grown.switchIds
  {
    SegmentIs(t, v);
    group := GroupOf(t.arch.interfaces, v.subnet, t.names);
    assert t.arch.nodes[..|t.arch.nodes|] == t.arch.nodes;
  }

  /** A node is on a segment by an interface of its own or as a switch that joined. */
  lemma NodeOnExactly(t: Translation, v: SegmentView, id: string)
    requires t.Valid() && v in t.segments
    ensures id in v.nodeIds <==> HasInterfaceOn(t.arch, id, v.subnet) || id in v.switchIds
  {
    var group := SegmentIsGrown(t, v);
    AfterNodeIds(t.arch, group, |t.arch.nodes|, id);
    GroupNodesExactly(t.arch, v.subnet, t.names, id);
  }

  lemma OnBefore(t: Translation, v: SegmentView, group: SegmentView, k: nat, id: string)
    requires t.Valid() && k <= |t.arch.nodes| && group == GroupOf(t.arch.interfaces, v.subnet, t.names)
    requires group.switchIds == [] && v.switchIds == After(t.arch, group, |t.arch.nodes|).switchIds
    ensures id in After(t.arch, group, k).nodeIds <==> WasOn(t, v, k, id)
  {
    AfterNodeIds(t.arch, group, k, id);
    GroupNodesExactly(t.arch, v.subnet, t.names, id);
    forall j | 0 <= j < k && t.arch.nodes[j].id == id
      ensures id in After(t.arch, group, k).switchIds <==> id in v.switchIds
    {
      StaysAfter(t.arch, group, j, k);
      StaysAfter(t.arch, group, j, |t.arch.nodes|);
    }
  }

  lemma FarInterfaceOnSubnet(t: Translation, group: SegmentView, subnet: SubnetSpec, nodeId: string)
    requires group == GroupOf(t.arch.interfaces, subnet, t.names)
    ensures FarInterfaces(t.arch.edges, nodeId) * group.interfaceIds != {} <==> LinksToSubnet(t.arch, nodeId, subnet)
    ensures FarInterfaces(t.arch.edges, nodeId) != {} <==> HasNamedLink(t.arch, nodeId)
  {
    var far := FarInterfaces(t.arch.edges, nodeId);
    if far * group.interfaceIds != {} {
      var x :| x in far * group.interfaceIds;
      FarInterfaceIsEnd(t.arch, nodeId, x);
      GroupInterfacesExactly(t.arch, subnet, t.names, x);
    }
    if p, i :| IsFarEnd(t.arch, nodeId, p) && NamesInterface(p) && i in t.arch.interfaces
               && i.id == p.interfaceId.value && i.FirstSubnet() == Some(subnet) {
      FarInterfaceIsEnd(t.arch, nodeId, i.id);
      GroupInterfacesExactly(t.arch, subnet, t.names, i.id);
      assert i.id in far * group.interfaceIds;
    }
    if far != {} {
      var x :| x in far;
      FarInterfaceIsEnd(t.arch, nodeId, x);
    }
    if p :| IsFarEnd(t.arch, nodeId, p) && NamesInterface(p) {
      FarInterfaceIsEnd(t.arch, nodeId, p.interfaceId.value);
    }
  }

  lemma FarNodeWasOn(t: Translation, v: SegmentView, group: SegmentView, k: nat)
    requires t.Valid() && k < |t.arch.nodes| && group == GroupOf(t.arch.interfaces, v.subnet, t.names)
    requires group.switchIds == [] && v.switchIds == After(t.arch, group, |t.arch.nodes|).switchIds
    ensures FarNodes(t.arch.edges, t.arch.nodes[k].id) * After(t.arch, group, k).nodeIds != {} <==> NeighbourWasOn(t, v, k)
  {
    var far, before := FarNodes(t.arch.edges, t.arch.nodes[k].id), After(t.arch, group, k).nodeIds;
    if far * before != {} {
      var x :| x in far * before;
      FarNodeIsEnd(t.arch, t.arch.nodes[k].id, x);
      OnBefore(t, v, group, k, x);
    }
    if p :| IsFarEnd(t.arch, t.arch.nodes[k].id, p) && WasOn(t, v, k, p.nodeId) {
      FarNodeIsEnd(t.arch, t.arch.nodes[k].id, p.nodeId);
      OnBefore(t, v, group, k, p.nodeId);
      assert p.nodeId in far * before;
    }
  }

  /** A switch or access point joins a segment exactly when one of its links ends at an interface of
      the segment; or when none of its links names an interface at all and one of them ends at a node
      that was on the segment when its turn came. Nothing else joins. */
  lemma SwitchJoinsExactly(t: Translation, v: SegmentView, k: nat)
    requires t.Valid() && v in t.segments && k < |t.arch.nodes|
    ensures var node := t.arch.nodes[k];
            node.id in v.switchIds <==>
            && (node.kind.Switch? || node.kind.AccessPoint?)
            && (|| LinksToSubnet(t.arch, node.id, v.subnet)
                || (!HasNamedLink(t.arch, node.id) && NeighbourWasOn(t, v, k)))
  {
    var node := t.arch.nodes[k];
    var group := SegmentIsGrown(t, v);
    JoinsAtTurn(t.arch, group, k);
    InterfacesStay(t.arch, group, k);
    FarInterfaceOnSubnet(t, group, v.subnet, node.id);
    FarNodeWasOn(t, v, group, k);
  }

  /** A switch that a link puts on one interface of a router stays off the router's other segments. */
  lemma SwitchStaysOff(t: Translation, v: SegmentView, k: nat)
    requires t.Valid() && v in t.segments && k < |t.arch.nodes|
    requires HasNamedLink(t.arch, t.arch.nodes[k].id) && !LinksToSubnet(t.arch, t.arch.nodes[k].id, v.subnet)
    ensures t.arch.nodes[k].id !in v.switchIds
    ensures t.arch.nodes[k].id in v.nodeIds <==> HasInterfaceOn(t.arch, t.arch.nodes[k].id, v.subnet)
  {
    SwitchJoinsExactly(t, v, k);
    NodeOnExactly(t, v, t.arch.nodes[k].id);
  }

  // ---------- Flags ----------

  predicate Forwards(n: Node) {
    n.kind.Router? || n.kind.Firewall? || n.kind.GatewayDevice? || n.kind.Balancer?
  }

  predicate IsForwarderId(arch: NetworkArchitecture, id: string) {
    exists n <- arch.nodes :: n.id == id && Forwards(n)
  }

  lemma ForwarderKnown(arch: NetworkArchitecture, id: string)
    requires arch.WellFormed()
    ensures arch.IsForwarder(id) <==> IsForwarderId(arch, id)
    ensures id in Routers(arch.nodes) <==> IsForwarderId(arch, id)
  {
    RoutersAre(arch.nodes, id);
    if n :| n in arch.nodes && n.id == id && Forwards(n) {
      SameNode(arch, n, arch.NodeById(id).value);
    }
  }

  lemma SameNode(arch: NetworkArchitecture, a: Node, b: Node)
    requires arch.WellFormed() && a in arch.nodes && b in arch.nodes && a.id == b.id
    ensures a == b
  {
    var j :| 0 <= j < |arch.nodes| && arch.nodes[j] == a;
    var k :| 0 <= k < |arch.nodes| && arch.nodes[k] == b;
  }

  /** A link between routers has two members or more, all of them forwarders. A segment is transport
      exactly when two different forwarders are on it. */
  lemma FlagsExactly(t: Translation, v: SegmentView)
    requires t.Valid() && v in t.segments
    ensures v.isTransit <==> |v.nodeIds| >= 2 && forall id <- v.nodeIds :: IsForwarderId(t.arch, id)
    ensures v.isTransport <==>
            exists a, b :: a in v.nodeIds && b in v.nodeIds && a != b && IsForwarderId(t.arch, a) && IsForwarderId(t.arch, b)
  {
    SegmentIs(t, v);
    var routers := Routers(t.arch.nodes);
    forall id ensures t.arch.IsForwarder(id) <==> IsForwarderId(t.arch, id)
              ensures id in routers <==> IsForwarderId(t.arch, id) {
      ForwarderKnown(t.arch, id);
    }
    TwoOwners(v.nodeIds, routers);
  }

  lemma TwoOwners(nodeIds: set<string>, routers: seq<string>)
    ensures |Owners(nodeIds, routers)| > 1 <==>
            exists a, b :: a in nodeIds && b in nodeIds && a != b && a in routers && b in routers
  {
    var owners := Owners(nodeIds, routers);
    if |owners| > 1 {
      var a :| a in owners;
      assert |owners - {a}| == |owners| - 1;
      var b :| b in owners - {a};
    }
    if a, b :| a in nodeIds && b in nodeIds && a != b && a in routers && b in routers {
      assert {a, b} <= owners && |{a, b}| == 2;
      SameSizeSubset({a, b}, owners);
      assert owners == {a, b} + (owners - {a, b});
    }
  }
}
