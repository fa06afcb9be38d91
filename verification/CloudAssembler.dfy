/**
 The cloud assembler: from the network's segments and routed domains to virtual networks,
 subnets, gateways, route tables, security groups and instances. Free-form plan text is taken
 as what is read from it: four gateway decisions and, per component, its kind and settings.
 */
module CloudAssembler {
  import opened Wrappers
  import opened Addressing
  import opened NetworkModel
  import opened CloudModel
  import opened Segments

  datatype Kind = Compute | OtherKind

  datatype PlanEntry = PlanEntry(kind: Option<Kind>, image: Option<string>, publicIp: bool)

  datatype Plan = Plan(
    wantsInternet: bool, wantsNat: bool, wantsPeering: bool, wantsTransit: bool,
    entries: map<string, PlanEntry>, rules: map<string, seq<SecurityRule>>)

  /** What the translation could not represent. */
  datatype Note =
    | NoBlock(routerId: string)
    | TransportLink(subnet: SubnetSpec)
    | Unrecognised(nodeId: string)
    | NotPlaced(nodeId: string)

  datatype Warning = PeeringNeedsTwoNetworks | MissingTransport

  // ---------- Networks and subnets ----------

  function SubnetsIn(segments: seq<SegmentView>): (r: seq<SubnetSpec>)
    ensures |r| == |segments|
    ensures forall k | 0 <= k < |segments| :: r[k] == segments[k].subnet
  {
    if segments == [] then [] else SubnetsIn(segments[..|segments| - 1]) + [segments[|segments| - 1].subnet]
  }

  function NetworkId(arch: NetworkArchitecture, routerId: string, names: Names): string {
    var node := arch.NodeById(routerId);
    "vpc-" + names.slug(if node.Some? then node.value.displayName else routerId)
  }

  function NetworkFor(arch: NetworkArchitecture, routerId: string, cover: SubnetSpec, names: Names): VirtualNetwork {
    VirtualNetwork(NetworkId(arch, routerId, names), cover, [], if routerId == IMPLICIT then [] else [routerId])
  }

  function SubnetFor(v: SegmentView, networkId: string, names: Names): Subnet {
    Subnet("sn-" + names.cidrSlug(v.subnet), networkId, v.subnet, v.id, v.isTransit, false, None)
  }

  function SubnetsFor(segments: seq<SegmentView>, networkId: string, names: Names): (r: seq<Subnet>)
    ensures |r| == |segments|
    ensures forall k | 0 <= k < |r| :: r[k] == SubnetFor(segments[k], networkId, names)
  {
    if segments == [] then []
    else SubnetsFor(segments[..|segments| - 1], networkId, names)
         + [SubnetFor(segments[|segments| - 1], networkId, names)]
  }

  type Cover = Option<SubnetSpec>

  /** The covering block of each domain; none when it has no IPv4 segment. */
  ghost predicate AreCovers(covers: seq<Cover>, domains: seq<Domain>) {
    && |covers| == |domains|
    && (domains != [] ==>
          var last := |domains| - 1;
          AreCovers(covers[..last], domains[..last]) && IsCover(covers[last], SubnetsIn(domains[last].segments)))
  }

  lemma {:induction false} CoverAt(covers: seq<Cover>, domains: seq<Domain>, k: nat)
    requires AreCovers(covers, domains) && k < |domains|
    ensures IsCover(covers[k], SubnetsIn(domains[k].segments))
  {
    var last := |domains| - 1;
    if k < last {
      CoverAt(covers[..last], domains[..last], k);
    }
  }

  ghost predicate IsCover(cover: Cover, subnets: seq<SubnetSpec>) {
    && (cover.Some? <==> HasIPv4(subnets))
    && (cover.Some? ==> IsLeastCover(cover.value, subnets))
  }

  /** What one domain contributes, given its covering block. */
  function DomainNetworks(arch: NetworkArchitecture, d: Domain, cover: Cover, names: Names): seq<VirtualNetwork> {
    if cover.Some? then [NetworkFor(arch, d.routerId, cover.value, names)] else []
  }

  function DomainSubnets(arch: NetworkArchitecture, d: Domain, cover: Cover, names: Names): seq<Subnet> {
    if cover.Some? then SubnetsFor(d.segments, NetworkId(arch, d.routerId, names), names) else []
  }

  function DomainNotes(d: Domain, cover: Cover): seq<Note> {
    if cover.None? && d.segments != [] then [NoBlock(d.routerId)] else []
  }

  function NetworksOf(arch: NetworkArchitecture, domains: seq<Domain>, covers: seq<Cover>, names: Names)
    : seq<VirtualNetwork>
    requires |covers| == |domains|
  {
    if domains == [] then []
    else
      var last := |domains| - 1;
      NetworksOf(arch, domains[..last], covers[..last], names) + DomainNetworks(arch, domains[last], covers[last], names)
  }

  function AllSubnets(arch: NetworkArchitecture, domains: seq<Domain>, covers: seq<Cover>, names: Names): seq<Subnet>
    requires |covers| == |domains|
  {
    if domains == [] then []
    else
      var last := |domains| - 1;
      AllSubnets(arch, domains[..last], covers[..last], names) + DomainSubnets(arch, domains[last], covers[last], names)
  }

  function NoBlocks(domains: seq<Domain>, covers: seq<Cover>): seq<Note>
    requires |covers| == |domains|
  {
    if domains == [] then []
    else
      var last := |domains| - 1;
      NoBlocks(domains[..last], covers[..last]) + DomainNotes(domains[last], covers[last])
  }

  method PlaceDomain(arch: NetworkArchitecture, d: Domain, names: Names)
    returns (networks: seq<VirtualNetwork>, subnets: seq<Subnet>, notes: seq<Note>, cover: Cover)
    ensures IsCover(cover, SubnetsIn(d.segments))
    ensures networks == DomainNetworks(arch, d, cover, names) && subnets == DomainSubnets(arch, d, cover, names)
    ensures notes == DomainNotes(d, cover)
  {
    networks, subnets, notes, cover := [], [], [], None;
    if d.segments == [] {
      return;
    }
    cover := CoveringSupernet(SubnetsIn(d.segments));
    if cover.None? {
      notes := [NoBlock(d.routerId)];
      return;
    }
    var network := NetworkFor(arch, d.routerId, cover.value, names);
    networks := [network];
    subnets := SubnetsFor(d.segments, network.id, names);
  }

  method NetworksAndSubnets(arch: NetworkArchitecture, domains: seq<Domain>, names: Names)
    returns (networks: seq<VirtualNetwork>, subnets: seq<Subnet>, notes: seq<Note>, covers: seq<Cover>)
    ensures AreCovers(covers, domains)
    ensures networks == NetworksOf(arch, domains, covers, names)
    ensures subnets == AllSubnets(arch, domains, covers, names)
    ensures notes == NoBlocks(domains, covers)
  {
    networks, subnets, notes, covers := [], [], [], [];
    for k := 0 to |domains|
      invariant AreCovers(covers, domains[..k])
      invariant networks == NetworksOf(arch, domains[..k], covers, names)
      invariant subnets == AllSubnets(arch, domains[..k], covers, names)
      invariant notes == NoBlocks(domains[..k], covers)
    {
      var itsNetworks, itsSubnets, itsNotes, cover := PlaceDomain(arch, domains[k], names);
      assert (covers + [cover])[..k] == covers && domains[..k + 1][..k] == domains[..k];
      networks, subnets, notes := networks + itsNetworks, subnets + itsSubnets, notes + itsNotes;
      covers := covers + [cover];
    }
    assert domains[..|domains|] == domains;
  }

  // ---------- Gateways ----------

  function FirstPublic(subnets: seq<Subnet>): (r: Option<Subnet>)
    ensures r.Some? ==> r.value in subnets
  {
    if subnets == [] then None
    else if subnets[0].isPublic then Some(subnets[0])
    else FirstPublic(subnets[1..])
  }

  function OwnGateways(plan: Plan, network: VirtualNetwork, subnets: seq<Subnet>): seq<Gateway>
    requires subnets != []
  {
    var public := FirstPublic(subnets);
    (if plan.wantsInternet then [Gateway("gw-igw-" + network.id, Internet, Some(network.id), None, [])] else [])
    + (if plan.wantsNat
       then [Gateway("gw-nat-" + network.id, Nat, Some(network.id),
                     Some(if public.Some? then public.value.id else subnets[0].id), [])]
       else [])
  }

  function NetworkGateways(plan: Plan, networks: seq<VirtualNetwork>, subnets: seq<Subnet>): seq<Gateway> {
    if networks == [] then []
    else
      var last := networks[|networks| - 1];
      var own := SubnetsOf(subnets, last.id);
      NetworkGateways(plan, networks[..|networks| - 1], subnets) + if own == [] then [] else OwnGateways(plan, last, own)
  }

  function NetworkIds(networks: seq<VirtualNetwork>): (r: seq<string>)
    ensures |r| == |networks|
    ensures forall k | 0 <= k < |r| :: r[k] == networks[k].id
  {
    if networks == [] then [] else NetworkIds(networks[..|networks| - 1]) + [networks[|networks| - 1].id]
  }

  function SharedGateways(plan: Plan, networks: seq<VirtualNetwork>): seq<Gateway> {
    (if plan.wantsPeering && |networks| == 2 then [Gateway("gw-peering", Peering, None, None, NetworkIds(networks))]
     else [])
    + (if plan.wantsTransit && |networks| >= 2 then [Gateway("gw-transit", Transit, None, None, NetworkIds(networks))]
       else [])
  }

  method Gateways(plan: Plan, networks: seq<VirtualNetwork>, subnets: seq<Subnet>)
    returns (gateways: seq<Gateway>, warnings: seq<Warning>)
    ensures gateways == NetworkGateways(plan, networks, subnets) + SharedGateways(plan, networks)
    ensures warnings == if plan.wantsPeering && |networks| != 2 then [PeeringNeedsTwoNetworks] else []
  {
    gateways, warnings := [], [];
    for k := 0 to |networks|
      invariant gateways == NetworkGateways(plan, networks[..k], subnets)
    {
      assert networks[..k + 1][..k] == networks[..k];
      var own := SubnetsOf(subnets, networks[k].id);
      if own != [] {
        gateways := gateways + OwnGateways(plan, networks[k], own);
      }
    }
    assert networks[..|networks|] == networks;
    if plan.wantsPeering && |networks| == 2 {
      gateways := gateways + [Gateway("gw-peering", Peering, None, None, NetworkIds(networks))];
    } else if plan.wantsPeering {
      warnings := [PeeringNeedsTwoNetworks];
    }
    if plan.wantsTransit && |networks| >= 2 {
      gateways := gateways + [Gateway("gw-transit", Transit, None, None, NetworkIds(networks))];
    }
  }

  // ---------- Transport ----------

  function TransportLinks(segments: seq<SegmentView>): seq<Note> {
    if segments == [] then []
    else
      var last := segments[|segments| - 1];
      TransportLinks(segments[..|segments| - 1]) + if last.isTransport then [TransportLink(last.subnet)] else []
  }

  predicate JoinsNetworks(g: Gateway) {
    g.kind.Peering? || g.kind.Transit?
  }

  /** Links between segments need something that joins the networks they lie in. */
  function TransportWarnings(segments: seq<SegmentView>, gateways: seq<Gateway>, networks: seq<VirtualNetwork>)
    : seq<Warning>
  {
    if (exists v <- segments :: v.isTransport) && |networks| > 1 && !exists g <- gateways :: JoinsNetworks(g)
    then [MissingTransport]
    else []
  }

  method CheckTransport(segments: seq<SegmentView>, gateways: seq<Gateway>, networks: seq<VirtualNetwork>)
    returns (notes: seq<Note>, warnings: seq<Warning>)
    ensures notes == TransportLinks(segments)
    ensures warnings == TransportWarnings(segments, gateways, networks)
  {
    notes := [];
    for k := 0 to |segments|
      invariant notes == TransportLinks(segments[..k])
      invariant notes != [] <==> exists v <- segments[..k] :: v.isTransport
    {
      assert segments[..k + 1] == segments[..k] + [segments[k]];
      if segments[k].isTransport {
        notes := notes + [TransportLink(segments[k].subnet)];
      }
    }
    assert segments[..|segments|] == segments;
    var hasTransport := exists g <- gateways :: JoinsNetworks(g);
    warnings := if notes != [] && !hasTransport && |networks| > 1 then [MissingTransport] else [];
  }

  // ---------- Route tables ----------

  function FirstGateway(gateways: seq<Gateway>, kind: GatewayType, networkId: string): (r: Option<Gateway>)
    ensures r.Some? ==> r.value in gateways && r.value.kind == kind && r.value.networkId == Some(networkId)
    ensures r.None? ==> forall g <- gateways :: g.kind != kind || g.networkId != Some(networkId)
  {
    if gateways == [] then None
    else if gateways[0].kind == kind && gateways[0].networkId == Some(networkId) then Some(gateways[0])
    else FirstGateway(gateways[1..], kind, networkId)
  }

  function FirstNetwork(networks: seq<VirtualNetwork>, id: string): (r: Option<VirtualNetwork>)
    ensures r.Some? ==> r.value in networks && r.value.id == id
    ensures r.None? ==> forall n <- networks :: n.id != id
  {
    if networks == [] then None
    else if networks[0].id == id then Some(networks[0])
    else FirstNetwork(networks[1..], id)
  }

  /** The internet gateway when the network has one, else its NAT gateway. */
  function DefaultRoutes(network: VirtualNetwork, gateways: seq<Gateway>): seq<Route> {
    var internet := FirstGateway(gateways, Internet, network.id);
    var outbound := FirstGateway(gateways, Nat, network.id);
    if internet.Some? then [Route(DEFAULT_ROUTE, internet.value.id)]
    else if outbound.Some? then [Route(DEFAULT_ROUTE, outbound.value.id)]
    else []
  }

  function PeerRoutes(network: VirtualNetwork, peers: seq<string>, target: string, networks: seq<VirtualNetwork>)
    : seq<Route>
  {
    if peers == [] then []
    else
      var peer := FirstNetwork(networks, peers[|peers| - 1]);
      PeerRoutes(network, peers[..|peers| - 1], target, networks)
      + if peers[|peers| - 1] != network.id && peer.Some? then [Route(peer.value.cidr, target)] else []
  }

  function RoutesThrough(network: VirtualNetwork, g: Gateway, networks: seq<VirtualNetwork>): seq<Route> {
    if JoinsNetworks(g) && network.id in g.peerNetworkIds then PeerRoutes(network, g.peerNetworkIds, g.id, networks)
    else []
  }

  function TransportRoutes(network: VirtualNetwork, gateways: seq<Gateway>, networks: seq<VirtualNetwork>): seq<Route> {
    if gateways == [] then []
    else
      TransportRoutes(network, gateways[..|gateways| - 1], networks)
      + RoutesThrough(network, gateways[|gateways| - 1], networks)
  }

  function SubnetIds(subnets: seq<Subnet>): (r: seq<string>)
    ensures |r| == |subnets|
    ensures forall k | 0 <= k < |r| :: r[k] == subnets[k].id
  {
    if subnets == [] then [] else SubnetIds(subnets[..|subnets| - 1]) + [subnets[|subnets| - 1].id]
  }

  function TableFor(network: VirtualNetwork, own: seq<Subnet>, gateways: seq<Gateway>, networks: seq<VirtualNetwork>)
    : RouteTable
  {
    RouteTable("rt-" + network.id, network.id,
               DefaultRoutes(network, gateways) + TransportRoutes(network, gateways, networks), SubnetIds(own))
  }

  function TablesOf(placed: seq<VirtualNetwork>, subnets: seq<Subnet>, gateways: seq<Gateway>,
                    networks: seq<VirtualNetwork>): seq<RouteTable>
  {
    if placed == [] then []
    else
      var last := placed[|placed| - 1];
      var own := SubnetsOf(subnets, last.id);
      TablesOf(placed[..|placed| - 1], subnets, gateways, networks)
      + if own == [] then [] else [TableFor(last, own, gateways, networks)]
  }

  method RoutesFor(network: VirtualNetwork, gateways: seq<Gateway>, networks: seq<VirtualNetwork>)
    returns (routes: seq<Route>)
    ensures routes == DefaultRoutes(network, gateways) + TransportRoutes(network, gateways, networks)
  {
    var more: seq<Route> := [];
    for k := 0 to |gateways|
      invariant more == TransportRoutes(network, gateways[..k], networks)
    {
      assert gateways[..k + 1][..k] == gateways[..k];
      var through := PeersThrough(network, gateways[k], networks);
      more := more + through;
    }
    assert gateways[..|gateways|] == gateways;
    routes := DefaultRoutes(network, gateways) + more;
  }

  method PeersThrough(network: VirtualNetwork, gateway: Gateway, networks: seq<VirtualNetwork>)
    returns (routes: seq<Route>)
    ensures routes == RoutesThrough(network, gateway, networks)
  {
    routes := [];
    var peers := gateway.peerNetworkIds;
    if !JoinsNetworks(gateway) || network.id !in peers {
      return;
    }
    for k := 0 to |peers|
      invariant routes == PeerRoutes(network, peers[..k], gateway.id, networks)
    {
      assert peers[..k + 1][..k] == peers[..k];
      if peers[k] != network.id {
        var peer := FirstNetwork(networks, peers[k]);
        if peer.Some? {
          routes := routes + [Route(peer.value.cidr, gateway.id)];
        }
      }
    }
    assert peers[..|peers|] == peers;
  }

  method RouteTables(networks: seq<VirtualNetwork>, subnets: seq<Subnet>, gateways: seq<Gateway>)
    returns (tables: seq<RouteTable>)
    ensures tables == TablesOf(networks, subnets, gateways, networks)
  {
    tables := [];
    for k := 0 to |networks|
      invariant tables == TablesOf(networks[..k], subnets, gateways, networks)
    {
      assert networks[..k + 1][..k] == networks[..k];
      var own := SubnetsOf(subnets, networks[k].id);
      if own != [] {
        var routes := RoutesFor(networks[k], gateways, networks);
        tables := tables + [RouteTable("rt-" + networks[k].id, networks[k].id, routes, SubnetIds(own))];
      }
    }
    assert networks[..|networks|] == networks;
  }

  // ---------- Security groups ----------

  function GroupFor(node: Node, plan: Plan, networkId: string, names: Names): SecurityGroup {
    SecurityGroup("sg-" + names.slug(node.id), networkId, if node.id in plan.rules then plan.rules[node.id] else [])
  }

  function GroupsOf(nodes: seq<Node>, plan: Plan, networkId: string, names: Names): seq<SecurityGroup> {
    if nodes == [] then []
    else
      var last := nodes[|nodes| - 1];
      GroupsOf(nodes[..|nodes| - 1], plan, networkId, names)
      + if last.kind.Firewall? then [GroupFor(last, plan, networkId, names)] else []
  }

  function SecurityGroupsOf(arch: NetworkArchitecture, plan: Plan, networks: seq<VirtualNetwork>, names: Names)
    : seq<SecurityGroup>
  {
    if networks == [] then [] else GroupsOf(arch.nodes, plan, networks[0].id, names)
  }

  method SecurityGroups(arch: NetworkArchitecture, plan: Plan, networks: seq<VirtualNetwork>, names: Names)
    returns (groups: seq<SecurityGroup>)
    ensures groups == SecurityGroupsOf(arch, plan, networks, names)
  {
    groups := [];
    if networks == [] {
      return;
    }
    for k := 0 to |arch.nodes|
      invariant groups == GroupsOf(arch.nodes[..k], plan, networks[0].id, names)
    {
      assert arch.nodes[..k + 1][..k] == arch.nodes[..k];
      if arch.nodes[k].kind.Firewall? {
        groups := groups + [GroupFor(arch.nodes[k], plan, networks[0].id, names)];
      }
    }
    assert arch.nodes[..|arch.nodes|] == arch.nodes;
  }

  function GroupIds(groups: seq<SecurityGroup>): seq<string> {
    if groups == [] then [] else GroupIds(groups[..|groups| - 1]) + [groups[|groups| - 1].id]
  }

  // ---------- Compute ----------

  /** What a component becomes when the plan said nothing usable about it. */
  function DefaultKind(node: Node): Option<Kind> {
    match node.kind
    case Server | Pc | DatabaseServer | Storage | Router | GatewayDevice => Some(Compute)
    case _ => None
  }

  function Entry(plan: Plan, node: Node): Option<PlanEntry> {
    if node.id in plan.entries then Some(plan.entries[node.id]) else None
  }

  function KindOf(node: Node, plan: Plan): Option<Kind> {
    var entry := Entry(plan, node);
    if entry.Some? && entry.value.kind.Some? then entry.value.kind else DefaultKind(node)
  }

  /** The segment an interface is on: a dictionary filled in order keeps the last. */
  function SegmentWith(segments: seq<SegmentView>, interfaceId: string): (r: Option<SegmentView>)
    ensures r.Some? ==> r.value in segments && interfaceId in r.value.interfaceIds
    ensures r.None? ==> forall v <- segments :: interfaceId !in v.interfaceIds
  {
    if segments == [] then None
    else if interfaceId in segments[|segments| - 1].interfaceIds then Some(segments[|segments| - 1])
    else SegmentWith(segments[..|segments| - 1], interfaceId)
  }

  function SubnetOfSegment(subnets: seq<Subnet>, segmentId: string): (r: Option<Subnet>)
    ensures r.Some? ==> r.value in subnets && r.value.segmentId == segmentId
    ensures r.None? ==> forall s <- subnets :: s.segmentId != segmentId
  {
    if subnets == [] then None
    else if subnets[|subnets| - 1].segmentId == segmentId then Some(subnets[|subnets| - 1])
    else SubnetOfSegment(subnets[..|subnets| - 1], segmentId)
  }

  /** The subnet an interface is placed in, if any. */
  function Placement(i: Interface, segments: seq<SegmentView>, subnets: seq<Subnet>): (r: Option<Subnet>)
    ensures r.Some? ==> r.value in subnets
  {
    var segment := SegmentWith(segments, i.id);
    if segment.None? then None else SubnetOfSegment(subnets, segment.value.id)
  }

  function NicFor(node: Node, i: Interface, subnetId: string, first: bool, names: Names): NetworkInterface {
    var address := i.PrimaryAddress();
    NetworkInterface("nic-" + names.slug(node.id) + "-" + names.slug(i.name), subnetId,
                     if address.Some? then Some(Parsed(address.value.address)) else None,
                     !node.IsL3Forwarder(), first, i.id)
  }

  function InterfacesOf(interfaces: seq<Interface>, nodeId: string): (r: seq<Interface>)
  {
    if interfaces == [] then []
    else
      var last := interfaces[|interfaces| - 1];
      InterfacesOf(interfaces[..|interfaces| - 1], nodeId) + if last.nodeId == nodeId then [last] else []
  }

  function NicsOf(node: Node, own: seq<Interface>, segments: seq<SegmentView>, subnets: seq<Subnet>, names: Names)
    : seq<NetworkInterface>
  {
    if own == [] then []
    else
      var last := own[|own| - 1];
      var subnet := Placement(last, segments, subnets);
      NicsOf(node, own[..|own| - 1], segments, subnets, names)
      + if subnet.Some? then [NicFor(node, last, subnet.value.id, |own| == 1, names)] else []
  }

  function InstanceFor(node: Node, plan: Plan, nics: seq<NetworkInterface>, groupIds: seq<string>, names: Names)
    : ComputeInstance
    requires nics != []
  {
    var entry := Entry(plan, node);
    ComputeInstance("c-" + names.slug(node.id), Some(nics[0].subnetId), nics, groupIds,
                    if entry.Some? then entry.value.image else None, None,
                    entry.Some? && entry.value.publicIp, node.IsL3Forwarder(), node.id)
  }

  function NicsIn(arch: NetworkArchitecture, node: Node, segments: seq<SegmentView>, subnets: seq<Subnet>, names: Names)
    : seq<NetworkInterface>
  {
    NicsOf(node, InterfacesOf(arch.interfaces, node.id), segments, subnets, names)
  }

  /** The instance a node becomes, if any. */
  function NodeInstances(arch: NetworkArchitecture, node: Node, plan: Plan, segments: seq<SegmentView>,
                         subnets: seq<Subnet>, groupIds: seq<string>, names: Names): seq<ComputeInstance>
  {
    var nics := NicsIn(arch, node, segments, subnets, names);
    if KindOf(node, plan) == Some(Compute) && nics != [] then [InstanceFor(node, plan, nics, groupIds, names)] else []
  }

  function InstancesOf(arch: NetworkArchitecture, nodes: seq<Node>, plan: Plan, segments: seq<SegmentView>,
                       subnets: seq<Subnet>, groupIds: seq<string>, names: Names): seq<ComputeInstance>
  {
    if nodes == [] then []
    else
      InstancesOf(arch, nodes[..|nodes| - 1], plan, segments, subnets, groupIds, names)
      + NodeInstances(arch, nodes[|nodes| - 1], plan, segments, subnets, groupIds, names)
  }

  function NodeNotes(arch: NetworkArchitecture, node: Node, plan: Plan, segments: seq<SegmentView>,
                     subnets: seq<Subnet>, names: Names): seq<Note>
  {
    var entry := Entry(plan, node);
    (if entry.Some? && entry.value.kind.None? then [Unrecognised(node.id)] else [])
    + (if KindOf(node, plan) == Some(Compute) && NicsIn(arch, node, segments, subnets, names) == []
       then [NotPlaced(node.id)] else [])
  }

  function NotesOf(arch: NetworkArchitecture, nodes: seq<Node>, plan: Plan, segments: seq<SegmentView>,
                   subnets: seq<Subnet>, names: Names): seq<Note>
  {
    if nodes == [] then []
    else NotesOf(arch, nodes[..|nodes| - 1], plan, segments, subnets, names)
         + NodeNotes(arch, nodes[|nodes| - 1], plan, segments, subnets, names)
  }

  method PlaceInterfaces(arch: NetworkArchitecture, node: Node, segments: seq<SegmentView>, subnets: seq<Subnet>,
                         names: Names) returns (nics: seq<NetworkInterface>)
    ensures nics == NicsIn(arch, node, segments, subnets, names)
  {
    nics := [];
    var own := InterfacesOf(arch.interfaces, node.id);
    for k := 0 to |own|
      invariant nics == NicsOf(node, own[..k], segments, subnets, names)
    {
      assert own[..k + 1][..k] == own[..k];
      var subnet := Placement(own[k], segments, subnets);
      if subnet.Some? {
        nics := nics + [NicFor(node, own[k], subnet.value.id, k == 0, names)];
      }
    }
    assert own[..|own|] == own;
  }

  method PlaceNode(arch: NetworkArchitecture, node: Node, plan: Plan, segments: seq<SegmentView>,
                   subnets: seq<Subnet>, groupIds: seq<string>, names: Names)
    returns (instances: seq<ComputeInstance>, notes: seq<Note>)
    ensures instances == NodeInstances(arch, node, plan, segments, subnets, groupIds, names)
    ensures notes == NodeNotes(arch, node, plan, segments, subnets, names)
  {
    instances, notes := [], [];
    var entry := Entry(plan, node);
    if entry.Some? && entry.value.kind.None? {
      notes := [Unrecognised(node.id)];
    }
    if KindOf(node, plan) == Some(Compute) {
      var nics := PlaceInterfaces(arch, node, segments, subnets, names);
      if nics == [] {
        notes := notes + [NotPlaced(node.id)];
      } else {
        instances := [InstanceFor(node, plan, nics, groupIds, names)];
      }
    }
  }

  method PlaceCompute(arch: NetworkArchitecture, plan: Plan, segments: seq<SegmentView>, subnets: seq<Subnet>,
                      groupIds: seq<string>, names: Names)
    returns (instances: seq<ComputeInstance>, notes: seq<Note>)
    ensures instances == InstancesOf(arch, arch.nodes, plan, segments, subnets, groupIds, names)
    ensures notes == NotesOf(arch, arch.nodes, plan, segments, subnets, names)
  {
    instances, notes := [], [];
    for k := 0 to |arch.nodes|
      invariant instances == InstancesOf(arch, arch.nodes[..k], plan, segments, subnets, groupIds, names)
      invariant notes == NotesOf(arch, arch.nodes[..k], plan, segments, subnets, names)
    {
      assert arch.nodes[..k + 1][..k] == arch.nodes[..k];
      var itsInstances, itsNotes := PlaceNode(arch, arch.nodes[k], plan, segments, subnets, groupIds, names);
      instances, notes := instances + itsInstances, notes + itsNotes;
    }
    assert arch.nodes[..|arch.nodes|] == arch.nodes;
  }

  // ---------- The whole architecture ----------

  datatype CloudArchitecture = CloudArchitecture(infra: Infrastructure, unmapped: seq<Note>, warnings: seq<Warning>)

  /** Every value once, in order of first appearance. */
  function Distinct<T(==,!new)>(xs: seq<T>): (r: seq<T>)
    ensures forall x :: x in r <==> x in xs
    ensures AllDistinct(r)
  {
    if xs == [] then []
    else
      var front, last := Distinct(xs[..|xs| - 1]), xs[|xs| - 1];
      assert forall x :: x in xs <==> x in xs[..|xs| - 1] || x == last;
      if last in front then front else front + [last]
  }

  /** The inputs of an assembly and what was discovered on the way. */
  datatype Translation = Translation(
    plan: Plan, arch: NetworkArchitecture, names: Names,
    found: seq<SegmentView>, segments: seq<SegmentView>, domains: seq<Domain>, covers: seq<Cover>)
  {
    /** The segments are those of the architecture, marked; the domains share them out. */
    ghost predicate Valid() {
      && arch.WellFormed() && Discovered(found, arch, names) && IsMarking(segments, found, Routers(arch.nodes))
      && domains == DomainsOf(segments, Routers(arch.nodes))
      && AreCovers(covers, domains)
    }

    function Networks(): seq<VirtualNetwork>
      requires |covers| == |domains|
    {
      NetworksOf(arch, domains, covers, names)
    }

    function Subnets(): seq<Subnet>
      requires |covers| == |domains|
    {
      AllSubnets(arch, domains, covers, names)
    }

    function Gateways(): seq<Gateway>
      requires |covers| == |domains|
    {
      NetworkGateways(plan, Networks(), Subnets()) + SharedGateways(plan, Networks())
    }

    function Groups(): seq<SecurityGroup>
      requires |covers| == |domains|
    {
      SecurityGroupsOf(arch, plan, Networks(), names)
    }

    function Instances(): seq<ComputeInstance>
      requires |covers| == |domains|
    {
      InstancesOf(arch, arch.nodes, plan, segments, Subnets(), GroupIds(Groups()), names)
    }

    function Infra(): Infrastructure
      requires |covers| == |domains|
    {
      Infrastructure(Networks(), Subnets(), TablesOf(Networks(), Subnets(), Gateways(), Networks()), Gateways(),
                     Instances(), [], [], Groups())
    }

    function Unmapped(): seq<Note>
      requires |covers| == |domains|
    {
      NoBlocks(domains, covers) + TransportLinks(segments) + NotesOf(arch, arch.nodes, plan, segments, Subnets(), names)
    }

    function Warnings(): seq<Warning>
      requires |covers| == |domains|
    {
      (if plan.wantsPeering && |Networks()| != 2 then [PeeringNeedsTwoNetworks] else [])
      + TransportWarnings(segments, Gateways(), Networks())
    }
  }

  /** The discovered segments, those on several forwarders marked as transport. */
  predicate IsMarking(segments: seq<SegmentView>, found: seq<SegmentView>, routers: seq<string>) {
    && |segments| == |found|
    && forall j | 0 <= j < |found| :: segments[j] == Marked(found[j], routers)
  }

  /** What the cloud architecture's own integrity check demands. */
  predicate Admissible(infra: Infrastructure) {
    && AllDistinct(infra.ResourceIds())
    && (forall s <- infra.subnets :: NetworkById(infra.networks, s.networkId).Some?)
    && (forall c <- infra.compute ::
          && (c.subnetId.Some? ==> SubnetById(infra.subnets, c.subnetId.value).Some?)
          && forall nic <- c.interfaces :: SubnetById(infra.subnets, nic.subnetId).Some?)
  }

  method Discover(arch: NetworkArchitecture, names: Names)
    returns (segments: seq<SegmentView>, domains: seq<Domain>, found: seq<SegmentView>)
    ensures Discovered(found, arch, names) && IsMarking(segments, found, Routers(arch.nodes))
    ensures domains == DomainsOf(segments, Routers(arch.nodes))
  {
    var objects := DiscoverSegments(arch, names);
    found := Views(objects);
    var byRouter := DiscoverDomains(arch, objects);
    segments := Views(objects);
    domains := Snapshot(byRouter, Routers(arch.nodes), objects);
  }

  /** Nothing when construction of the result raises. */
  method Assemble(plan: Plan, arch: NetworkArchitecture, names: Names)
    returns (cloud: Option<CloudArchitecture>, t: Translation)
    requires arch.WellFormed()
    ensures t.plan == plan && t.arch == arch && t.names == names && t.Valid()
    ensures cloud.Some? <==> Admissible(t.Infra())
    ensures cloud.Some? ==> cloud.value.infra == t.Infra() && cloud.value.unmapped == Distinct(t.Unmapped())
    ensures cloud.Some? ==> cloud.value.warnings == t.Warnings()
  {
    var segments, domains, found := Discover(arch, names);
    var networks, subnets, noBlocks, covers := NetworksAndSubnets(arch, domains, names);
    t := Translation(plan, arch, names, found, segments, domains, covers);
    var gateways, peering := Gateways(plan, networks, subnets);
    var links, missing := CheckTransport(segments, gateways, networks);
    var tables := RouteTables(networks, subnets, gateways);
    var groups := SecurityGroups(arch, plan, networks, names);
    var instances, notes := PlaceCompute(arch, plan, segments, subnets, GroupIds(groups), names);
    cloud := Construct(Infrastructure(networks, subnets, tables, gateways, instances, [], [], groups),
                       noBlocks + links + notes, peering + missing);
  }

  method Construct(infra: Infrastructure, notes: seq<Note>, warnings: seq<Warning>)
    returns (cloud: Option<CloudArchitecture>)
    ensures cloud.Some? <==> Admissible(infra)
    ensures cloud.Some? ==> cloud.value == CloudArchitecture(infra, Distinct(notes), warnings)
  {
    if !Admissible(infra) {
      return None;
    }
    cloud := Some(CloudArchitecture(infra, Distinct(notes), warnings));
  }
}
