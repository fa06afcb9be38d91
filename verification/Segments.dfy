/**
 Broadcast domains and routed domains: interfaces that share a subnet form a segment, switches
 join the segments of what they connect, and each segment belongs to the one layer 3 forwarder
 on it, or is transport between several.
 */
module Segments {
  import opened Wrappers
  import opened Addressing
  import opened NetworkModel
  import opened Sorting

  /** Text the naming is built from: a slug for a block and a slug for any other text. */
  datatype Names = Names(cidrSlug: SubnetSpec -> string, slug: string -> string) {
    function SegmentId(subnet: SubnetSpec): string {
      "seg-" + cidrSlug(subnet)
    }
  }

  /** The contents of a segment. */
  datatype SegmentView = SegmentView(
    id: string, subnet: SubnetSpec, nodeIds: set<string>, interfaceIds: set<string>, vlanId: Option<nat>,
    switchIds: seq<string>, isTransit: bool, isTransport: bool)
  {
    function WithInterface(i: Interface): SegmentView {
      this.(nodeIds := nodeIds + {i.nodeId}, interfaceIds := interfaceIds + {i.id},
            vlanId := if vlanId.Some? then vlanId else i.vlanId)
    }

    function WithSwitch(nodeId: string): SegmentView {
      this.(nodeIds := nodeIds + {nodeId}, switchIds := switchIds + [nodeId])
    }
  }

  class Segment {
    const id: string
    const subnet: SubnetSpec
    var nodeIds: set<string>
    var interfaceIds: set<string>
    var vlanId: Option<nat>
    var switchIds: seq<string>
    var isTransit: bool
    var isTransport: bool

    constructor (id: string, subnet: SubnetSpec, vlanId: Option<nat>)
      ensures View() == SegmentView(id, subnet, {}, {}, vlanId, [], false, false)
      ensures this.id == id && this.subnet == subnet
    {
      this.id, this.subnet, this.vlanId := id, subnet, vlanId;
      nodeIds, interfaceIds, switchIds := {}, {}, [];
      isTransit, isTransport := false, false;
    }

    function View(): (v: SegmentView)
      reads this
    {
      SegmentView(id, subnet, nodeIds, interfaceIds, vlanId, switchIds, isTransit, isTransport)
    }

    method AddInterface(i: Interface)
      modifies this
      ensures View() == old(View()).WithInterface(i)
    {
      nodeIds := nodeIds + {i.nodeId};
      interfaceIds := interfaceIds + {i.id};
      if vlanId.None? {
        vlanId := i.vlanId;
      }
    }

    method MarkTransport()
      modifies this
      ensures View() == old(View()).(isTransport := true)
    {
      isTransport := true;
    }

    method AttachSwitch(nodeId: string)
      modifies this
      ensures View() == old(View()).WithSwitch(nodeId)
    {
      nodeIds := nodeIds + {nodeId};
      switchIds := switchIds + [nodeId];
    }
  }

  function Views(segments: seq<Segment>): (r: seq<SegmentView>)
    reads segments
    ensures |r| == |segments|
    ensures forall k :: 0 <= k < |segments| ==> r[k] == segments[k].View()
  {
    if segments == [] then [] else Views(segments[..|segments| - 1]) + [segments[|segments| - 1].View()]
  }

  predicate AllDistinct<T(==)>(xs: seq<T>) {
    forall j, k :: 0 <= j < k < |xs| ==> xs[j] != xs[k]
  }

  // ---------- Interfaces ----------

  predicate IsOn(i: Interface, subnet: SubnetSpec) {
    i.FirstSubnet() == Some(subnet)
  }

  /** The segment of a subnet once these interfaces have been grouped. */
  function GroupOf(interfaces: seq<Interface>, subnet: SubnetSpec, names: Names): (v: SegmentView)
    ensures v.id == names.SegmentId(subnet) && v.subnet == subnet && v.switchIds == []
    ensures !v.isTransit && !v.isTransport
  {
    if interfaces == [] then SegmentView(names.SegmentId(subnet), subnet, {}, {}, None, [], false, false)
    else
      var last := interfaces[|interfaces| - 1];
      var before := GroupOf(interfaces[..|interfaces| - 1], subnet, names);
      if IsOn(last, subnet) then before.WithInterface(last) else before
  }

  /** One segment for each subnet some interface is on, holding what is on it. */
  ghost predicate Grouped(views: seq<SegmentView>, interfaces: seq<Interface>, names: Names) {
    && (forall j, k :: 0 <= j < k < |views| ==> views[j].subnet != views[k].subnet)
    && (forall j | 0 <= j < |views| :: views[j] == GroupOf(interfaces, views[j].subnet, names))
    && (forall j | 0 <= j < |views| :: views[j].interfaceIds != {})
    && (forall i <- interfaces :: i.FirstSubnet().Some? ==> HasSubnet(views, i.FirstSubnet().value))
  }

  predicate HasSubnet(views: seq<SegmentView>, subnet: SubnetSpec) {
    exists j | 0 <= j < |views| :: views[j].subnet == subnet
  }

  /** The dictionary keyed by subnet, as its insertion-ordered values. */
  function Position(groups: seq<SegmentView>, subnet: SubnetSpec): (r: Option<nat>)
    ensures r.Some? ==> r.value < |groups| && groups[r.value].subnet == subnet
    ensures r.None? ==> !HasSubnet(groups, subnet)
  {
    if groups == [] then None
    else if groups[|groups| - 1].subnet == subnet then Some(|groups| - 1)
    else Position(groups[..|groups| - 1], subnet)
  }

  function Started(subnet: SubnetSpec, i: Interface, names: Names): SegmentView {
    SegmentView(names.SegmentId(subnet), subnet, {}, {}, i.vlanId, [], false, false).WithInterface(i)
  }

  /** The groups once one more interface has been placed. */
  function Place(groups: seq<SegmentView>, i: Interface, names: Names): seq<SegmentView> {
    if i.FirstSubnet().None? then groups
    else
      var at := Position(groups, i.FirstSubnet().value);
      if at.None? then groups + [Started(i.FirstSubnet().value, i, names)]
      else groups[at.value := groups[at.value].WithInterface(i)]
  }

  function Groups(interfaces: seq<Interface>, names: Names): seq<SegmentView> {
    if interfaces == [] then []
    else Place(Groups(interfaces[..|interfaces| - 1], names), interfaces[|interfaces| - 1], names)
  }

  method GroupInterfaces(interfaces: seq<Interface>, names: Names) returns (segments: seq<Segment>)
    ensures AllDistinct(segments) && forall j | 0 <= j < |segments| :: fresh(segments[j])
    ensures Views(segments) == Groups(interfaces, names)
  {
    segments := [];
    for k := 0 to |interfaces|
      invariant AllDistinct(segments) && forall j | 0 <= j < |segments| :: fresh(segments[j])
      invariant Views(segments) == Groups(interfaces[..k], names)
    {
      assert interfaces[..k + 1][..k] == interfaces[..k];
      segments := GroupInterface(segments, interfaces[k], names);
    }
    assert interfaces[..|interfaces|] == interfaces;
  }

  method GroupInterface(segments: seq<Segment>, i: Interface, names: Names) returns (segments': seq<Segment>)
    requires AllDistinct(segments)
    modifies segments
    ensures |segments| <= |segments'| && AllDistinct(segments')
    ensures forall j | 0 <= j < |segments'| :: if j < |segments| then segments'[j] == segments[j] else fresh(segments'[j])
    ensures Views(segments') == Place(old(Views(segments)), i, names)
  {
    segments' := segments;
    if i.FirstSubnet().Some? {
      var subnet := i.FirstSubnet().value;
      var at := Position(Views(segments), subnet);
      if at.None? {
        segments' := Start(segments, subnet, i, names);
      } else {
        Join(segments, at.value, i);
      }
    }
  }

  method Start(segments: seq<Segment>, subnet: SubnetSpec, i: Interface, names: Names) returns (segments': seq<Segment>)
    requires AllDistinct(segments)
    ensures AllDistinct(segments') && |segments'| == |segments| + 1 && segments <= segments' && fresh(segments'[|segments|])
    ensures Views(segments') == old(Views(segments)) + [Started(subnet, i, names)]
  {
    var segment := new Segment(names.SegmentId(subnet), subnet, i.vlanId);
    segment.AddInterface(i);
    segments' := segments + [segment];
  }

  method Join(segments: seq<Segment>, at: nat, i: Interface)
    requires AllDistinct(segments) && at < |segments|
    modifies segments[at]
    ensures Views(segments) == old(Views(segments))[at := old(segments[at].View()).WithInterface(i)]
  {
    segments[at].AddInterface(i);
  }

  /** The groups are one for each subnet, with everything on it. */
  lemma {:induction false} GroupsGrouped(interfaces: seq<Interface>, names: Names)
    ensures Grouped(Groups(interfaces, names), interfaces, names)
  {
    if interfaces != [] {
      var front, last := interfaces[..|interfaces| - 1], interfaces[|interfaces| - 1];
      var before := Groups(front, names);
      GroupsGrouped(front, names);
      assert interfaces == front + [last];
      if last.FirstSubnet().None? {
        NoGroup(before, front, last, names);
      } else if Position(before, last.FirstSubnet().value).None? {
        NewGroup(before, front, last, last.FirstSubnet().value, names);
      } else {
        JoinGroup(before, front, last, Position(before, last.FirstSubnet().value).value, names);
      }
    }
  }

  lemma GroupStep(interfaces: seq<Interface>, i: Interface, subnet: SubnetSpec, names: Names)
    ensures GroupOf(interfaces + [i], subnet, names)
            == if IsOn(i, subnet) then GroupOf(interfaces, subnet, names).WithInterface(i)
               else GroupOf(interfaces, subnet, names)
  {
    assert (interfaces + [i])[..|interfaces|] == interfaces;
  }

  lemma {:induction false} EmptyGroup(interfaces: seq<Interface>, subnet: SubnetSpec, names: Names)
    requires forall i <- interfaces :: !IsOn(i, subnet)
    ensures GroupOf(interfaces, subnet, names)
            == SegmentView(names.SegmentId(subnet), subnet, {}, {}, None, [], false, false)
  {
    if interfaces != [] {
      EmptyGroup(interfaces[..|interfaces| - 1], subnet, names);
      assert interfaces[|interfaces| - 1] in interfaces;
    }
  }

  lemma NewGroup(before: seq<SegmentView>, interfaces: seq<Interface>, i: Interface, subnet: SubnetSpec, names: Names)
    requires Grouped(before, interfaces, names) && IsOn(i, subnet) && !HasSubnet(before, subnet)
    ensures Grouped(before + [Started(subnet, i, names)], interfaces + [i], names)
  {
    var after := before + [Started(subnet, i, names)];
    EmptyGroup(interfaces, subnet, names);
    forall j | 0 <= j < |after| ensures after[j] == GroupOf(interfaces + [i], after[j].subnet, names) {
      GroupStep(interfaces, i, after[j].subnet, names);
    }
    HasSubnetGrows(before, after);
    assert after[|before|].subnet == subnet;
  }

  lemma HasSubnetGrows(before: seq<SegmentView>, after: seq<SegmentView>)
    requires |before| <= |after| && forall j | 0 <= j < |before| :: after[j].subnet == before[j].subnet
    ensures forall s: SubnetSpec :: HasSubnet(before, s) ==> HasSubnet(after, s)
  {
    forall s: SubnetSpec | HasSubnet(before, s) ensures HasSubnet(after, s) {
      var j :| 0 <= j < |before| && before[j].subnet == s;
      assert after[j].subnet == s;
    }
  }

  lemma JoinGroup(before: seq<SegmentView>, interfaces: seq<Interface>, i: Interface, at: nat, names: Names)
    requires Grouped(before, interfaces, names) && at < |before| && IsOn(i, before[at].subnet)
    ensures Grouped(before[at := before[at].WithInterface(i)], interfaces + [i], names)
  {
    var after := before[at := before[at].WithInterface(i)];
    forall j | 0 <= j < |after| ensures after[j] == GroupOf(interfaces + [i], after[j].subnet, names) {
      GroupStep(interfaces, i, after[j].subnet, names);
    }
    HasSubnetGrows(before, after);
    assert after[at].subnet == before[at].subnet;
  }

  lemma NoGroup(before: seq<SegmentView>, interfaces: seq<Interface>, i: Interface, names: Names)
    requires Grouped(before, interfaces, names) && i.FirstSubnet().None?
    ensures Grouped(before, interfaces + [i], names)
  {
    forall j | 0 <= j < |before| ensures before[j] == GroupOf(interfaces + [i], before[j].subnet, names) {
      GroupStep(interfaces, i, before[j].subnet, names);
    }
  }

  // ---------- Switches ----------

  function FarNode(p: LinkEndpoint, nodeId: string): set<string> {
    if p.nodeId == nodeId then {} else {p.nodeId}
  }

  function FarInterface(p: LinkEndpoint, nodeId: string): set<string> {
    if p.nodeId != nodeId && p.interfaceId.Some? && p.interfaceId.value != "" then {p.interfaceId.value} else {}
  }

  /** The nodes at the far ends of a node's edges. */
  function FarNodes(edges: seq<Edge>, nodeId: string): set<string> {
    if edges == [] then {}
    else
      var e := edges[|edges| - 1];
      FarNodes(edges[..|edges| - 1], nodeId)
      + if e.Connects(nodeId) then FarNode(e.source, nodeId) + FarNode(e.target, nodeId) else {}
  }

  /** The interfaces there, where the edges name them. */
  function FarInterfaces(edges: seq<Edge>, nodeId: string): set<string> {
    if edges == [] then {}
    else
      var e := edges[|edges| - 1];
      FarInterfaces(edges[..|edges| - 1], nodeId)
      + if e.Connects(nodeId) then FarInterface(e.source, nodeId) + FarInterface(e.target, nodeId) else {}
  }

  /** Whether a switch with these far ends is on the segment: by the interfaces at the far ends
      when any is known, and otherwise by the nodes there. */
  predicate Attaches(v: SegmentView, farInterfaces: set<string>, farNodes: set<string>) {
    if farInterfaces * v.interfaceIds != {} then true
    else if farInterfaces != {} then false
    else farNodes * v.nodeIds != {}
  }

  function AfterNode(v: SegmentView, node: Node, edges: seq<Edge>): (r: SegmentView)
    ensures r.id == v.id && r.subnet == v.subnet && r.interfaceIds == v.interfaceIds
  {
    if node.IsL2() && Attaches(v, FarInterfaces(edges, node.id), FarNodes(edges, node.id)) then v.WithSwitch(node.id)
    else v
  }

  /** A segment after every switch has been considered in order: a switch attached by node
      adjacency sees the switches attached before it. */
  function AfterNodes(v: SegmentView, nodes: seq<Node>, edges: seq<Edge>): (r: SegmentView)
    ensures r.id == v.id && r.subnet == v.subnet && r.interfaceIds == v.interfaceIds
  {
    if nodes == [] then v
    else AfterNode(AfterNodes(v, nodes[..|nodes| - 1], edges), nodes[|nodes| - 1], edges)
  }

  method FarEnds(edges: seq<Edge>, nodeId: string) returns (farInterfaces: set<string>, farNodes: set<string>)
    ensures farInterfaces == FarInterfaces(edges, nodeId) && farNodes == FarNodes(edges, nodeId)
  {
    farInterfaces, farNodes := {}, {};
    for k := 0 to |edges|
      invariant farInterfaces == FarInterfaces(edges[..k], nodeId) && farNodes == FarNodes(edges[..k], nodeId)
    {
      var e := edges[k];
      assert edges[..k + 1][..k] == edges[..k];
      if e.Connects(nodeId) {
        farInterfaces, farNodes := AddEndpoint(e.source, nodeId, farInterfaces, farNodes);
        farInterfaces, farNodes := AddEndpoint(e.target, nodeId, farInterfaces, farNodes);
      }
    }
    assert edges[..|edges|] == edges;
  }

  method AddEndpoint(p: LinkEndpoint, nodeId: string, farInterfaces: set<string>, farNodes: set<string>)
    returns (farInterfaces': set<string>, farNodes': set<string>)
    ensures farInterfaces' == farInterfaces + FarInterface(p, nodeId) && farNodes' == farNodes + FarNode(p, nodeId)
  {
    farInterfaces', farNodes' := farInterfaces, farNodes;
    if p.nodeId == nodeId {
      return;
    }
    farNodes' := farNodes + {p.nodeId};
    if p.interfaceId.Some? && p.interfaceId.value != "" {
      farInterfaces' := farInterfaces + {p.interfaceId.value};
    }
  }

  method AttachNode(segments: seq<Segment>, node: Node, edges: seq<Edge>)
    requires AllDistinct(segments)
    modifies segments
    ensures forall j | 0 <= j < |segments| :: segments[j].View() == AfterNode(old(segments[j].View()), node, edges)
  {
    if !node.IsL2() {
      return;
    }
    var farInterfaces, farNodes := FarEnds(edges, node.id);
    for k := 0 to |segments|
      invariant forall j | 0 <= j < k :: segments[j].View() == AfterNode(old(segments[j].View()), node, edges)
      invariant forall j | k <= j < |segments| :: segments[j].View() == old(segments[j].View())
    {
      if Attaches(segments[k].View(), farInterfaces, farNodes) {
        segments[k].AttachSwitch(node.id);
      }
    }
  }

  method AttachSwitches(segments: seq<Segment>, nodes: seq<Node>, edges: seq<Edge>)
    requires AllDistinct(segments)
    modifies segments
    ensures forall j | 0 <= j < |segments| :: segments[j].View() == AfterNodes(old(segments[j].View()), nodes, edges)
  {
    for k := 0 to |nodes|
      invariant forall j | 0 <= j < |segments| ::
                  segments[j].View() == AfterNodes(old(segments[j].View()), nodes[..k], edges)
    {
      assert nodes[..k + 1][..k] == nodes[..k];
      AttachNode(segments, nodes[k], edges);
    }
    assert nodes[..|nodes|] == nodes;
  }

  // ---------- Discovery ----------

  /** Two or more members, all of them layer 3 forwarders: a link between routers. */
  predicate IsTransitLink(arch: NetworkArchitecture, nodeIds: set<string>) {
    |nodeIds| >= 2 && forall n <- nodeIds :: arch.IsForwarder(n)
  }

  lemma SameSizeSubset<T>(part: set<T>, whole: set<T>)
    requires part <= whole
    ensures |part| == |whole| <==> part == whole
  {
    assert whole == part + (whole - part);
  }

  method MarkTransit(segments: seq<Segment>, arch: NetworkArchitecture)
    requires AllDistinct(segments)
    modifies segments
    ensures forall j | 0 <= j < |segments| ::
              segments[j].View() == Transit(old(segments[j].View()), arch)
  {
    for k := 0 to |segments|
      invariant forall j | 0 <= j < k :: segments[j].View() == Transit(old(segments[j].View()), arch)
      invariant forall j | k <= j < |segments| :: segments[j].View() == old(segments[j].View())
    {
      segments[k].isTransit := OnlyForwarders(segments[k].nodeIds, arch);
    }
  }

  function OnlyForwarders(nodeIds: set<string>, arch: NetworkArchitecture): (r: bool)
    ensures r <==> IsTransitLink(arch, nodeIds)
  {
    var l3Members := set n <- nodeIds | arch.IsForwarder(n);
    SameSizeSubset(l3Members, nodeIds);
    |l3Members| >= 2 && |nodeIds| == |l3Members|
  }

  function Transit(v: SegmentView, arch: NetworkArchitecture): SegmentView {
    v.(isTransit := IsTransitLink(arch, v.nodeIds))
  }

  /** The broadcast domain of a subnet. */
  function SegmentOf(arch: NetworkArchitecture, subnet: SubnetSpec, names: Names): (v: SegmentView)
    ensures v.id == names.SegmentId(subnet) && v.subnet == subnet
  {
    Transit(AfterNodes(GroupOf(arch.interfaces, subnet, names), arch.nodes, arch.edges), arch)
  }

  /** Exactly one segment for each subnet some interface is on, by ascending id. */
  ghost predicate Discovered(views: seq<SegmentView>, arch: NetworkArchitecture, names: Names) {
    && Ascending(views, (v: SegmentView) => v.id)
    && (forall j, k :: 0 <= j < k < |views| ==> views[j].subnet != views[k].subnet)
    && (forall j | 0 <= j < |views| :: views[j] == SegmentOf(arch, views[j].subnet, names))
    && (forall s: SubnetSpec :: HasSubnet(views, s) <==> exists i <- arch.interfaces :: IsOn(i, s))
  }

  lemma {:induction false} GroupedFromInterface(interfaces: seq<Interface>, subnet: SubnetSpec, names: Names)
    requires GroupOf(interfaces, subnet, names).interfaceIds != {}
    ensures exists i <- interfaces :: IsOn(i, subnet)
  {
    if forall i <- interfaces :: !IsOn(i, subnet) {
      EmptyGroup(interfaces, subnet, names);
    }
  }

  lemma GroupedSubnets(groups: seq<SegmentView>, interfaces: seq<Interface>, names: Names, s: SubnetSpec)
    requires Grouped(groups, interfaces, names)
    ensures HasSubnet(groups, s) <==> exists i <- interfaces :: IsOn(i, s)
  {
    if HasSubnet(groups, s) {
      GroupedFromInterface(interfaces, s, names);
    }
    if i :| i in interfaces && IsOn(i, s) {
      assert HasSubnet(groups, i.FirstSubnet().value);
    }
  }

  lemma PermutedIndex<T>(xs: seq<T>, ys: seq<T>, k: nat) returns (j: nat)
    requires multiset(xs) == multiset(ys) && k < |ys|
    ensures j < |xs| && xs[j] == ys[k]
  {
    assert ys[k] in multiset(xs);
    j :| 0 <= j < |xs| && xs[j] == ys[k];
  }

  lemma {:induction false} DistinctPermuted<T>(xs: seq<T>, ys: seq<T>)
    requires multiset(xs) == multiset(ys) && AllDistinct(xs)
    ensures AllDistinct(ys)
  {
    forall j, k | 0 <= j < k < |ys| ensures ys[j] != ys[k] {
      if ys[j] == ys[k] {
        TwiceInMultiset(ys, j, k);
        OnceWhenDistinct(xs, ys[j]);
      }
    }
  }

  lemma {:induction false} OnceWhenDistinct<T>(xs: seq<T>, x: T)
    requires AllDistinct(xs)
    ensures multiset(xs)[x] <= 1
  {
    if xs != [] {
      OnceWhenDistinct(xs[1..], x);
      assert xs == [xs[0]] + xs[1..];
      if xs[0] == x {
        assert x !in xs[1..];
      }
    }
  }

  /** Reordering the finished segments by id loses and repeats none. */
  lemma SortedDiscovery(grouped: seq<Segment>, segments: seq<Segment>, groups: seq<SegmentView>,
                        arch: NetworkArchitecture, names: Names)
    requires AllDistinct(grouped) && multiset(segments) == multiset(grouped)
    requires Ascending(segments, (s: Segment) => s.id)
    requires |groups| == |grouped| && Grouped(groups, arch.interfaces, names)
    requires forall j | 0 <= j < |grouped| ::
               grouped[j].View() == Transit(AfterNodes(groups[j], arch.nodes, arch.edges), arch)
    ensures AllDistinct(segments) && Discovered(Views(segments), arch, names)
  {
    var views := Views(segments);
    DistinctPermuted(grouped, segments);
    forall j | 0 <= j < |views| ensures views[j] == SegmentOf(arch, views[j].subnet, names) {
      var k := PermutedIndex(grouped, segments, j);
    }
    assert forall j | 0 <= j < |grouped| :: grouped[j].View().subnet == groups[j].subnet;
    SubnetsStayApart(grouped, segments, groups);
    forall s: SubnetSpec ensures HasSubnet(views, s) <==> exists i <- arch.interfaces :: IsOn(i, s) {
      GroupedSubnets(groups, arch.interfaces, names, s);
      SameSubnets(grouped, segments, groups, s);
    }
  }

  lemma SubnetsStayApart(grouped: seq<Segment>, segments: seq<Segment>, groups: seq<SegmentView>)
    requires AllDistinct(segments) && multiset(segments) == multiset(grouped) && |groups| == |grouped|
    requires forall j | 0 <= j < |grouped| :: grouped[j].subnet == groups[j].subnet
    requires forall j, k :: 0 <= j < k < |groups| ==> groups[j].subnet != groups[k].subnet
    ensures forall j, k :: 0 <= j < k < |segments| ==> segments[j].subnet != segments[k].subnet
  {
    forall j, k | 0 <= j < k < |segments| ensures segments[j].subnet != segments[k].subnet {
      var a := PermutedIndex(grouped, segments, j);
      var b := PermutedIndex(grouped, segments, k);
      assert groups[a].subnet == segments[j].subnet && groups[b].subnet == segments[k].subnet;
    }
  }

  lemma SameSubnets(grouped: seq<Segment>, segments: seq<Segment>, groups: seq<SegmentView>, s: SubnetSpec)
    requires multiset(segments) == multiset(grouped) && |groups| == |grouped|
    requires forall j | 0 <= j < |grouped| :: grouped[j].subnet == groups[j].subnet
    ensures HasSubnet(Views(segments), s) <==> HasSubnet(groups, s)
  {
    var views := Views(segments);
    if j :| 0 <= j < |views| && views[j].subnet == s {
      var k := PermutedIndex(grouped, segments, j);
      assert groups[k].subnet == s;
    }
    if j :| 0 <= j < |groups| && groups[j].subnet == s {
      var k := PermutedIndex(segments, grouped, j);
      assert views[k].subnet == s;
    }
  }

  method DiscoverSegments(arch: NetworkArchitecture, names: Names) returns (segments: seq<Segment>)
    ensures forall j :: 0 <= j < |segments| ==> fresh(segments[j])
    ensures AllDistinct(segments) && Discovered(Views(segments), arch, names)
  {
    var grouped := GroupInterfaces(arch.interfaces, names);
    ghost var groups := Views(grouped);
    GroupsGrouped(arch.interfaces, names);
    AttachSwitches(grouped, arch.nodes, arch.edges);
    MarkTransit(grouped, arch);
    segments := SortBy(grouped, (s: Segment) => s.id);
    SortAscending(grouped, (s: Segment) => s.id);
    assert forall j | 0 <= j < |grouped| :: grouped[j].subnet == grouped[j].View().subnet;
    SortedDiscovery(grouped, segments, groups, arch, names);
    forall j | 0 <= j < |segments| ensures fresh(segments[j]) {
      var k := PermutedIndex(grouped, segments, j);
    }
  }

  // ---------- Routed domains ----------

  const IMPLICIT := "__implicit__"

  /** The forwarders a segment touches. */
  function Owners(nodeIds: set<string>, routers: seq<string>): set<string> {
    set r <- routers | r in nodeIds
  }

  /** A segment belongs to its only forwarder, or to the first one when it touches none. */
  predicate OwnedBy(nodeIds: set<string>, router: string, routers: seq<string>)
    requires routers != []
  {
    var owners := Owners(nodeIds, routers);
    |owners| <= 1 && if owners == {} then router == routers[0] else router in owners
  }

  function OwnedAmong(views: seq<SegmentView>, router: string, routers: seq<string>): seq<SegmentView>
    requires routers != []
  {
    if views == [] then []
    else
      OwnedAmong(views[..|views| - 1], router, routers)
      + if OwnedBy(views[|views| - 1].nodeIds, router, routers) then [views[|views| - 1]] else []
  }

  lemma {:induction false} OwnedAmongMeans(views: seq<SegmentView>, router: string, routers: seq<string>, v: SegmentView)
    requires routers != []
    ensures v in OwnedAmong(views, router, routers) <==> v in views && OwnedBy(v.nodeIds, router, routers)
  {
    if views != [] {
      var front := views[..|views| - 1];
      OwnedAmongMeans(front, router, routers, v);
      assert v in views <==> v in front || v == views[|views| - 1];
    }
  }

  /** A segment on several forwarders is transport between their domains. */
  function Marked(v: SegmentView, routers: seq<string>): SegmentView {
    v.(isTransport := v.isTransport || |Owners(v.nodeIds, routers)| > 1)
  }

  function ForwarderIds(nodes: seq<Node>): (r: seq<string>)
    ensures forall id :: id in r <==> exists n <- nodes :: n.IsL3Forwarder() && n.id == id
  {
    if nodes == [] then []
    else
      var last := nodes[|nodes| - 1];
      var before := ForwarderIds(nodes[..|nodes| - 1]);
      assert forall n :: n in nodes <==> n in nodes[..|nodes| - 1] || n == last;
      if last.IsL3Forwarder() then before + [last.id] else before
  }

  function Routers(nodes: seq<Node>): (r: seq<string>)
    ensures multiset(r) == multiset(ForwarderIds(nodes))
  {
    SortBy(ForwarderIds(nodes), (id: string) => id)
  }

  function Members(segments: seq<Segment>): (r: seq<set<string>>)
    reads segments
    ensures |r| == |segments|
    ensures forall k | 0 <= k < |segments| :: r[k] == segments[k].nodeIds
  {
    if segments == [] then [] else Members(segments[..|segments| - 1]) + [segments[|segments| - 1].nodeIds]
  }

  method DiscoverDomains(arch: NetworkArchitecture, segments: seq<Segment>)
    returns (domains: map<string, seq<Segment>>)
    requires AllDistinct(segments)
    modifies segments
    ensures forall j | 0 <= j < |segments| ::
              segments[j].View() == Marked(old(segments[j].View()), Routers(arch.nodes))
    ensures
      var routers := Routers(arch.nodes);
      if routers == [] then domains == map[IMPLICIT := segments]
      else Assigned(domains, segments, Members(segments), routers)
  {
    var routers := Routers(arch.nodes);
    if routers == [] {
      return map[IMPLICIT := segments];
    }
    domains := EmptyDomains(routers);
    ghost var members := Members(segments);
    for k := 0 to |segments|
      invariant Assigned(domains, segments[..k], members[..k], routers)
      invariant forall j | 0 <= j < k :: segments[j].View() == Marked(old(segments[j].View()), routers)
      invariant forall j | k <= j < |segments| :: segments[j].View() == old(segments[j].View())
    {
      domains := AssignDomain(segments, k, members, routers, domains);
    }
    assert segments[..|segments|] == segments && members[..|segments|] == members == Members(segments);
  }

  method AssignDomain(segments: seq<Segment>, k: nat, ghost members: seq<set<string>>, routers: seq<string>,
                      domains: map<string, seq<Segment>>)
    returns (domains': map<string, seq<Segment>>)
    requires routers != [] && k < |segments| == |members| && members[k] == segments[k].nodeIds
    requires Assigned(domains, segments[..k], members[..k], routers)
    modifies segments[k]
    ensures Assigned(domains', segments[..k + 1], members[..k + 1], routers)
    ensures segments[k].View() == Marked(old(segments[k].View()), routers)
  {
    domains' := domains;
    var segment := segments[k];
    var owner := ChooseOwner(segment.nodeIds, routers);
    AssignedStep(domains, segments, members, k, owner, routers);
    if owner.None? {
      segment.MarkTransport();
    } else {
      domains' := domains[owner.value := domains[owner.value] + [segment]];
    }
  }

  method EmptyDomains(routers: seq<string>) returns (domains: map<string, seq<Segment>>)
    requires routers != []
    ensures Assigned(domains, [], [], routers)
  {
    domains := map[];
    for k := 0 to |routers|
      invariant forall r :: r in domains <==> r in routers[..k]
      invariant forall r <- domains :: domains[r] == []
    {
      assert routers[..k + 1] == routers[..k] + [routers[k]];
      domains := domains[routers[k] := []];
    }
    assert routers[..|routers|] == routers;
  }

  /** The segments a forwarder owns, given the nodes on each. */
  function OwnedSegments(segments: seq<Segment>, members: seq<set<string>>, router: string, routers: seq<string>)
    : seq<Segment>
    requires routers != [] && |segments| == |members|
  {
    if segments == [] then []
    else
      var last := |segments| - 1;
      OwnedSegments(segments[..last], members[..last], router, routers)
      + if OwnedBy(members[last], router, routers) then [segments[last]] else []
  }

  lemma {:induction false} OwnedViews(segments: seq<Segment>, router: string, routers: seq<string>)
    requires routers != []
    ensures Views(OwnedSegments(segments, Members(segments), router, routers))
            == OwnedAmong(Views(segments), router, routers)
  {
    if segments != [] {
      var front, last := segments[..|segments| - 1], segments[|segments| - 1];
      OwnedViews(front, router, routers);
      AppendedView(OwnedSegments(front, Members(front), router, routers), last);
      assert Views(segments)[..|front|] == Views(front) && Members(segments)[..|front|] == Members(front);
    }
  }

  lemma AppendedView(front: seq<Segment>, segment: Segment)
    ensures Views(front + [segment]) == Views(front) + [segment.View()]
  {
    assert (front + [segment])[..|front|] == front;
  }

  /** Each forwarder's list holds the segments it owns, in order. */
  ghost predicate Assigned(domains: map<string, seq<Segment>>, segments: seq<Segment>, members: seq<set<string>>,
                           routers: seq<string>)
    requires routers != [] && |segments| == |members|
  {
    && (forall r :: r in domains <==> r in routers)
    && (forall r <- routers :: domains[r] == OwnedSegments(segments, members, r, routers))
  }

  lemma AssignedStep(domains: map<string, seq<Segment>>, segments: seq<Segment>, members: seq<set<string>>, k: nat,
                     owner: Option<string>, routers: seq<string>)
    requires routers != [] && k < |segments| == |members|
    requires Assigned(domains, segments[..k], members[..k], routers)
    requires forall r <- routers :: OwnedBy(members[k], r, routers) <==> owner == Some(r)
    requires owner.Some? ==> owner.value in routers
    ensures
      var domains' := if owner.None? then domains else domains[owner.value := domains[owner.value] + [segments[k]]];
      Assigned(domains', segments[..k + 1], members[..k + 1], routers)
  {
    assert segments[..k + 1][..k] == segments[..k] && members[..k + 1][..k] == members[..k];
  }

  /** The domain a segment goes to; none when it is transport. */
  method ChooseOwner(nodeIds: set<string>, routers: seq<string>) returns (owner: Option<string>)
    requires routers != []
    ensures owner.None? <==> |Owners(nodeIds, routers)| > 1
    ensures forall r <- routers :: OwnedBy(nodeIds, r, routers) <==> owner == Some(r)
    ensures owner.Some? ==> owner.value in routers
  {
    var owners := Owners(nodeIds, routers);
    if |owners| > 1 {
      return None;
    }
    if owners == {} {
      return Some(routers[0]);
    }
    var sole :| sole in owners;
    SoleElement(owners, sole);
    return Some(sole);
  }

  lemma SoleElement<T>(s: set<T>, x: T)
    requires x in s && |s| <= 1
    ensures s == {x}
  {
    assert s == {x} + (s - {x});
  }

  /** A routed domain: its forwarder and the segments it owns. */
  datatype Domain = Domain(routerId: string, segments: seq<SegmentView>)

  function DomainOf(views: seq<SegmentView>, router: string, routers: seq<string>): Domain
    requires routers != []
  {
    Domain(router, OwnedAmong(views, router, routers))
  }

  /** The domains by ascending forwarder. */
  function DomainsOf(views: seq<SegmentView>, routers: seq<string>): (r: seq<Domain>)
    ensures |r| == if routers == [] then 1 else |routers|
  {
    if routers == [] then [Domain(IMPLICIT, views)]
    else seq(|routers|, k requires 0 <= k < |routers| => DomainOf(views, routers[k], routers))
  }

  /** The contents of the domains, once nothing is updated any more. */
  method Snapshot(domains: map<string, seq<Segment>>, routers: seq<string>, segments: seq<Segment>)
    returns (r: seq<Domain>)
    requires if routers == [] then domains == map[IMPLICIT := segments] else Assigned(domains, segments, Members(segments), routers)
    ensures r == DomainsOf(Views(segments), routers)
  {
    if routers == [] {
      return [Domain(IMPLICIT, Views(domains[IMPLICIT]))];
    }
    ghost var views := Views(segments);
    r := [];
    for k := 0 to |routers|
      invariant |r| == k && forall j | 0 <= j < k :: r[j] == DomainOf(views, routers[j], routers)
    {
      OwnedViews(segments, routers[k], routers);
      r := r + [Domain(routers[k], Views(domains[routers[k]]))];
    }
  }
}
