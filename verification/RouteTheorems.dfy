/**
 The assembler's route tables against the route table validator: the only thing it can report is
 a repeated destination, and the inputs for which it does are described exactly.
 */
module RouteTheorems {
  import opened Wrappers
  import opened Addressing
  import opened Lists
  import opened NetworkModel
  import opened CloudModel
  import opened CloudValidators
  import opened Segments
  import opened CloudAssembler
  import opened AssemblyFacts
  import opened AssemblerTheorems

  // ---------- Repeated destinations ----------

  predicate HasDestination(routes: seq<Route>, d: SubnetSpec) {
    exists r <- routes :: r.destination == d
  }

  predicate Share(a: seq<Route>, b: seq<Route>) {
    exists r <- b :: HasDestination(a, r.destination)
  }

  lemma {:induction false} RepeatedConcat(a: seq<Route>, b: seq<Route>)
    ensures HasRepeatedDestination(a + b) <==> HasRepeatedDestination(a) || HasRepeatedDestination(b) || Share(a, b)
  {
    if b == [] {
      assert a + b == a;
    } else {
      var front, last := b[..|b| - 1], b[|b| - 1];
      assert b == front + [last] && a + b == (a + front) + [last];
      RepeatedConcat(a, front);
      RepeatedStep(a + front, last);
      RepeatedStep(front, last);
      assert Share(a, b) <==> Share(a, front) || HasDestination(a, last.destination);
      assert HasDestination(a + front, last.destination)
             <==> HasDestination(a, last.destination) || HasDestination(front, last.destination);
    }
  }

  // ---------- Routes to the other networks ----------

  /** A route to each of these networks but one. */
  function RoutesToOthers(id: string, networks: seq<VirtualNetwork>, target: string): seq<Route> {
    if networks == [] then []
    else
      var last := networks[|networks| - 1];
      RoutesToOthers(id, networks[..|networks| - 1], target)
      + if last.id != id then [Route(last.cidr, target)] else []
  }

  predicate IdsDistinct(networks: seq<VirtualNetwork>) {
    forall j, k :: 0 <= j < k < |networks| ==> networks[j].id != networks[k].id
  }

  lemma FirstIsSole(networks: seq<VirtualNetwork>, n: VirtualNetwork)
    requires IdsDistinct(networks) && n in networks
    ensures FirstNetwork(networks, n.id) == Some(n)
  {
    var found := FirstNetwork(networks, n.id);
    var j :| 0 <= j < |networks| && networks[j] == n;
    var k :| 0 <= k < |networks| && networks[k] == found.value;
  }

  lemma {:induction false} PeersAreOthers(n: VirtualNetwork, part: seq<VirtualNetwork>, networks: seq<VirtualNetwork>,
                                          target: string)
    requires IdsDistinct(networks) && forall m <- part :: m in networks
    ensures PeerRoutes(n, NetworkIds(part), target, networks) == RoutesToOthers(n.id, part, target)
  {
    if part != [] {
      var front, last := part[..|part| - 1], part[|part| - 1];
      PeersAreOthers(n, front, networks, target);
      FirstIsSole(networks, last);
      assert NetworkIds(part)[..|front|] == NetworkIds(front);
    }
  }

  lemma {:induction false} OthersReached(id: string, networks: seq<VirtualNetwork>, target: string, d: SubnetSpec)
    ensures HasDestination(RoutesToOthers(id, networks, target), d)
            <==> exists n <- networks :: n.id != id && n.cidr == d
  {
    if networks != [] {
      var front, last := networks[..|networks| - 1], networks[|networks| - 1];
      OthersReached(id, front, target, d);
      assert forall n :: n in networks <==> n in front || n == last;
      assert HasDestination(RoutesToOthers(id, networks, target), d)
             <==> HasDestination(RoutesToOthers(id, front, target), d) || (last.id != id && last.cidr == d);
    }
  }

  /** Two of the networks other than this one have the same block. */
  predicate OthersCoincide(id: string, networks: seq<VirtualNetwork>) {
    exists j, k :: 0 <= j < k < |networks| && networks[j].id != id && networks[k].id != id
                   && networks[j].cidr == networks[k].cidr
  }

  lemma CoincideStep(id: string, front: seq<VirtualNetwork>, last: VirtualNetwork)
    ensures OthersCoincide(id, front + [last])
            <==> OthersCoincide(id, front) || (last.id != id && exists n <- front :: n.id != id && n.cidr == last.cidr)
  {
    var networks := front + [last];
    if j, k :| 0 <= j < k < |front| && front[j].id != id && front[k].id != id && front[j].cidr == front[k].cidr {
      assert networks[j].cidr == networks[k].cidr && networks[j].id != id && networks[k].id != id;
    }
    if n :| n in front && n.id != id && n.cidr == last.cidr && last.id != id {
      var j :| 0 <= j < |front| && front[j] == n;
      assert networks[j].cidr == networks[|front|].cidr && networks[j].id != id && networks[|front|].id != id;
    }
  }

  lemma {:induction false} OthersRepeat(id: string, networks: seq<VirtualNetwork>, target: string)
    ensures HasRepeatedDestination(RoutesToOthers(id, networks, target)) <==> OthersCoincide(id, networks)
  {
    if networks != [] {
      var front, last := networks[..|networks| - 1], networks[|networks| - 1];
      assert networks == front + [last];
      OthersRepeat(id, front, target);
      CoincideStep(id, front, last);
      if last.id != id {
        RepeatedStep(RoutesToOthers(id, front, target), Route(last.cidr, target));
        OthersReached(id, front, target, last.cidr);
      } else {
        assert RoutesToOthers(id, networks, target) == RoutesToOthers(id, front, target);
      }
    }
  }

  // ---------- The routes of one table ----------

  lemma LastGateway(n: VirtualNetwork, front: seq<Gateway>, last: Gateway, networks: seq<VirtualNetwork>)
    ensures TransportRoutes(n, front + [last], networks)
            == TransportRoutes(n, front, networks) + RoutesThrough(n, last, networks)
  {
    assert (front + [last])[..|front|] == front;
  }

  lemma {:induction false} NoTransport(n: VirtualNetwork, gateways: seq<Gateway>, networks: seq<VirtualNetwork>)
    requires forall g <- gateways :: !JoinsNetworks(g)
    ensures TransportRoutes(n, gateways, networks) == []
  {
    if gateways != [] {
      NoTransport(n, gateways[..|gateways| - 1], networks);
      assert gateways[|gateways| - 1] in gateways;
    }
  }

  lemma {:induction false} OwnGatewaysDoNotJoin(plan: Plan, networks: seq<VirtualNetwork>, subnets: seq<Subnet>)
    ensures forall g <- NetworkGateways(plan, networks, subnets) :: !JoinsNetworks(g)
  {
    if networks != [] {
      OwnGatewaysDoNotJoin(plan, networks[..|networks| - 1], subnets);
    }
  }

  predicate Peers(t: Translation)
    requires |t.covers| == |t.domains|
  {
    t.plan.wantsPeering && |t.Networks()| == 2
  }

  predicate Transits(t: Translation)
    requires |t.covers| == |t.domains|
  {
    t.plan.wantsTransit && |t.Networks()| >= 2
  }

  predicate HasDefault(t: Translation) {
    t.plan.wantsInternet || t.plan.wantsNat
  }

  function PeeringRoutes(t: Translation, id: string): seq<Route>
    requires |t.covers| == |t.domains|
  {
    if Peers(t) then RoutesToOthers(id, t.Networks(), "gw-peering") else []
  }

  function TransitRoutes(t: Translation, id: string): seq<Route>
    requires |t.covers| == |t.domains|
  {
    if Transits(t) then RoutesToOthers(id, t.Networks(), "gw-transit") else []
  }

  lemma SharedRoutes(t: Translation, n: VirtualNetwork)
    requires |t.covers| == |t.domains| && IdsDistinct(t.Networks()) && n in t.Networks()
    ensures TransportRoutes(n, t.Gateways(), t.Networks()) == PeeringRoutes(t, n.id) + TransitRoutes(t, n.id)
  {
    OwnGatewaysDoNotJoin(t.plan, t.Networks(), t.Subnets());
    SharedOnly(t.plan, n, t.Networks(), NetworkGateways(t.plan, t.Networks(), t.Subnets()));
  }

  function OnlyIf<T>(wanted: bool, x: T): seq<T> {
    if wanted then [x] else []
  }

  function Through(n: VirtualNetwork, networks: seq<VirtualNetwork>, g: Gateway, wanted: bool): seq<Route> {
    if wanted then RoutesToOthers(n.id, networks, g.id) else []
  }

  lemma WantedThrough(n: VirtualNetwork, networks: seq<VirtualNetwork>, front: seq<Gateway>, before: seq<Route>,
                      g: Gateway, wanted: bool)
    requires IdsDistinct(networks) && n in networks && JoinsNetworks(g) && g.peerNetworkIds == NetworkIds(networks)
    requires TransportRoutes(n, front, networks) == before
    ensures TransportRoutes(n, front + OnlyIf(wanted, g), networks) == before + Through(n, networks, g, wanted)
  {
    if wanted {
      SharedThrough(n, g, networks);
      LastGateway(n, front, g, networks);
    } else {
      assert front + OnlyIf(wanted, g) == front;
    }
  }

  lemma TwoWanted(n: VirtualNetwork, networks: seq<VirtualNetwork>, own: seq<Gateway>,
                  first: Gateway, wantsFirst: bool, second: Gateway, wantsSecond: bool)
    requires IdsDistinct(networks) && n in networks && forall g <- own :: !JoinsNetworks(g)
    requires JoinsNetworks(first) && first.peerNetworkIds == NetworkIds(networks)
    requires JoinsNetworks(second) && second.peerNetworkIds == NetworkIds(networks)
    ensures TransportRoutes(n, own + OnlyIf(wantsFirst, first) + OnlyIf(wantsSecond, second), networks)
            == (if wantsFirst then RoutesToOthers(n.id, networks, first.id) else [])
               + (if wantsSecond then RoutesToOthers(n.id, networks, second.id) else [])
  {
    var through := Through(n, networks, first, wantsFirst);
    NoTransport(n, own, networks);
    WantedThrough(n, networks, own, [], first, wantsFirst);
    assert [] + through == through;
    WantedThrough(n, networks, own + OnlyIf(wantsFirst, first), through, second, wantsSecond);
  }

  lemma SharedOnly(plan: Plan, n: VirtualNetwork, networks: seq<VirtualNetwork>, own: seq<Gateway>)
    requires IdsDistinct(networks) && n in networks && forall g <- own :: !JoinsNetworks(g)
    ensures TransportRoutes(n, own + SharedGateways(plan, networks), networks)
            == (if plan.wantsPeering && |networks| == 2 then RoutesToOthers(n.id, networks, "gw-peering") else [])
               + (if plan.wantsTransit && |networks| >= 2 then RoutesToOthers(n.id, networks, "gw-transit") else [])
  {
    var peering := Gateway("gw-peering", Peering, None, None, NetworkIds(networks));
    var transit := Gateway("gw-transit", Transit, None, None, NetworkIds(networks));
    var peers, transits := plan.wantsPeering && |networks| == 2, plan.wantsTransit && |networks| >= 2;
    TwoWanted(n, networks, own, peering, peers, transit, transits);
    Associate(own, OnlyIf(peers, peering), OnlyIf(transits, transit));
  }

  lemma SharedThrough(n: VirtualNetwork, g: Gateway, networks: seq<VirtualNetwork>)
    requires IdsDistinct(networks) && n in networks && JoinsNetworks(g) && g.peerNetworkIds == NetworkIds(networks)
    ensures RoutesThrough(n, g, networks) == RoutesToOthers(n.id, networks, g.id)
  {
    var j :| 0 <= j < |networks| && networks[j] == n;
    assert NetworkIds(networks)[j] == n.id;
    PeersAreOthers(n, networks, networks, g.id);
  }

  lemma {:induction false} FirstOwnGateway(plan: Plan, networks: seq<VirtualNetwork>, subnets: seq<Subnet>,
                                           n: VirtualNetwork, g: Gateway)
    requires n in networks && SubnetsOf(subnets, n.id) != [] && g in OwnGateways(plan, n, SubnetsOf(subnets, n.id))
    ensures g in NetworkGateways(plan, networks, subnets)
  {
    var front := networks[..|networks| - 1];
    if n in front {
      FirstOwnGateway(plan, front, subnets, n, g);
    } else {
      assert n == networks[|networks| - 1];
    }
  }

  lemma {:induction false} OwnGatewayKinds(plan: Plan, networks: seq<VirtualNetwork>, subnets: seq<Subnet>, g: Gateway)
    requires g in NetworkGateways(plan, networks, subnets)
    ensures (g.kind.Internet? && plan.wantsInternet) || (g.kind.Nat? && plan.wantsNat && g.subnetId.Some?)
  {
    var front := networks[..|networks| - 1];
    if g in NetworkGateways(plan, front, subnets) {
      OwnGatewayKinds(plan, front, subnets, g);
    }
  }

  lemma GatewayKinds(t: Translation, g: Gateway)
    requires |t.covers| == |t.domains| && g in t.Gateways()
    ensures g.kind.Internet? ==> t.plan.wantsInternet
    ensures g.kind.Nat? ==> t.plan.wantsNat && g.subnetId.Some?
    ensures g.kind.Peering? ==> |g.peerNetworkIds| == 2
  {
    if g in NetworkGateways(t.plan, t.Networks(), t.Subnets()) {
      OwnGatewayKinds(t.plan, t.Networks(), t.Subnets(), g);
    }
  }

  /** Every network has a subnet: its block covers some segment. */
  lemma NetworkHasSubnet(t: Translation, n: VirtualNetwork)
    requires t.Valid() && n in t.Networks()
    ensures SubnetsOf(t.Subnets(), n.id) != []
  {
    var k := NetworkFrom(t.arch, t.domains, t.covers, t.names, n);
    CoverAt(t.covers, t.domains, k);
    var subnets := SubnetsIn(t.domains[k].segments);
    var s :| s in subnets;
    var v := t.domains[k].segments[0];
    SubnetListed(t, k, v);
    assert SubnetIn(t, v, k) in SubnetsOf(t.Subnets(), n.id);
  }

  lemma WantedGateway(plan: Plan, n: VirtualNetwork, own: seq<Subnet>) returns (g: Gateway)
    requires own != [] && (plan.wantsInternet || plan.wantsNat)
    ensures g in OwnGateways(plan, n, own) && (g.kind.Internet? || g.kind.Nat?) && g.networkId == Some(n.id)
  {
    g := OwnGateways(plan, n, own)[0];
  }

  lemma WayOutExists(t: Translation, n: VirtualNetwork)
    requires t.Valid() && n in t.Networks() && HasDefault(t)
    ensures FirstGateway(t.Gateways(), Internet, n.id).Some? || FirstGateway(t.Gateways(), Nat, n.id).Some?
  {
    NetworkHasSubnet(t, n);
    var g := WantedGateway(t.plan, n, SubnetsOf(t.Subnets(), n.id));
    FirstOwnGateway(t.plan, t.Networks(), t.Subnets(), n, g);
    assert g in t.Gateways();
  }

  /** A network has a default route exactly when the plan asked for a way out. */
  lemma DefaultRouteIff(t: Translation, n: VirtualNetwork)
    requires t.Valid() && n in t.Networks()
    ensures |DefaultRoutes(n, t.Gateways())| == if HasDefault(t) then 1 else 0
    ensures forall r <- DefaultRoutes(n, t.Gateways()) :: r.destination == DEFAULT_ROUTE
  {
    var internet := FirstGateway(t.Gateways(), Internet, n.id);
    var outbound := FirstGateway(t.Gateways(), Nat, n.id);
    if internet.Some? {
      GatewayKinds(t, internet.value);
    } else if outbound.Some? {
      GatewayKinds(t, outbound.value);
    } else if HasDefault(t) {
      WayOutExists(t, n);
    }
  }

  // ---------- When a destination repeats ----------

  /** What the plan makes of several networks. */
  datatype Links = Links(peering: bool, transit: bool, wayOut: bool)

  function LinksOf(t: Translation): Links
    requires |t.covers| == |t.domains|
  {
    Links(Peers(t), Transits(t), HasDefault(t))
  }

  /** The network's table has two routes to one destination. */
  predicate TableClashes(links: Links, networks: seq<VirtualNetwork>, id: string) {
    || (links.peering && links.transit && exists n <- networks :: n.id != id)
    || (links.transit && OthersCoincide(id, networks))
    || (links.wayOut && (links.peering || links.transit) && exists n <- networks :: n.id != id && n.cidr == DEFAULT_ROUTE)
  }

  lemma OneOther(id: string, networks: seq<VirtualNetwork>)
    requires |networks| == 2 && IdsDistinct(networks) && exists n <- networks :: n.id == id
    ensures !OthersCoincide(id, networks)
  {
  }

  lemma SharedRepeat(t: Translation, n: VirtualNetwork)
    requires |t.covers| == |t.domains| && IdsDistinct(t.Networks()) && n in t.Networks()
    ensures HasRepeatedDestination(PeeringRoutes(t, n.id) + TransitRoutes(t, n.id)) <==>
            || (Peers(t) && Transits(t) && exists m <- t.Networks() :: m.id != n.id)
            || (Transits(t) && OthersCoincide(n.id, t.Networks()))
  {
    var networks := t.Networks();
    var peering, transit := PeeringRoutes(t, n.id), TransitRoutes(t, n.id);
    RepeatedConcat(peering, transit);
    OthersRepeat(n.id, networks, "gw-peering");
    OthersRepeat(n.id, networks, "gw-transit");
    if Peers(t) {
      OneOther(n.id, networks);
    }
    if Peers(t) && Transits(t) {
      BothReach(n.id, networks);
    }
  }

  lemma BothReach(id: string, networks: seq<VirtualNetwork>)
    ensures Share(RoutesToOthers(id, networks, "gw-peering"), RoutesToOthers(id, networks, "gw-transit"))
            <==> exists m <- networks :: m.id != id
  {
    var peering, transit := RoutesToOthers(id, networks, "gw-peering"), RoutesToOthers(id, networks, "gw-transit");
    if m :| m in networks && m.id != id {
      OthersReached(id, networks, "gw-peering", m.cidr);
      OthersReached(id, networks, "gw-transit", m.cidr);
      var r :| r in transit && r.destination == m.cidr;
      assert Share(peering, transit);
    }
    if r :| r in transit && HasDestination(peering, r.destination) {
      OthersReached(id, networks, "gw-peering", r.destination);
    }
  }

  lemma SharedReach(t: Translation, n: VirtualNetwork, d: SubnetSpec)
    requires |t.covers| == |t.domains|
    ensures HasDestination(PeeringRoutes(t, n.id) + TransitRoutes(t, n.id), d) <==>
            (Peers(t) || Transits(t)) && exists m <- t.Networks() :: m.id != n.id && m.cidr == d
  {
    OthersReached(n.id, t.Networks(), "gw-peering", d);
    OthersReached(n.id, t.Networks(), "gw-transit", d);
    var peering, transit := PeeringRoutes(t, n.id), TransitRoutes(t, n.id);
    assert HasDestination(peering + transit, d) <==> HasDestination(peering, d) || HasDestination(transit, d);
  }

  lemma FewDefaults(routes: seq<Route>)
    requires |routes| <= 1
    ensures !HasRepeatedDestination(routes)
  {
  }

  function RoutesOf(t: Translation, n: VirtualNetwork): seq<Route>
    requires |t.covers| == |t.domains|
  {
    DefaultRoutes(n, t.Gateways()) + TransportRoutes(n, t.Gateways(), t.Networks())
  }

  lemma TableRepeats(t: Translation, n: VirtualNetwork)
    requires Accepted(t) && n in t.Networks()
    ensures HasRepeatedDestination(RoutesOf(t, n)) <==> TableClashes(LinksOf(t), t.Networks(), n.id)
  {
    IdsApart(t);
    SharedRoutes(t, n);
    DefaultRouteIff(t, n);
    var defaults, shared := DefaultRoutes(n, t.Gateways()), PeeringRoutes(t, n.id) + TransitRoutes(t, n.id);
    FewDefaults(defaults);
    RepeatedConcat(defaults, shared);
    SharedRepeat(t, n);
    SharedReach(t, n, DEFAULT_ROUTE);
    DefaultsShare(defaults, shared);
  }

  lemma DefaultsShare(defaults: seq<Route>, shared: seq<Route>)
    requires |defaults| <= 1 && forall r <- defaults :: r.destination == DEFAULT_ROUTE
    ensures Share(defaults, shared) <==> defaults != [] && HasDestination(shared, DEFAULT_ROUTE)
  {
    if defaults != [] {
      assert defaults[0] in defaults;
    }
  }

  // ---------- The report ----------

  lemma {:induction false} TableListed(placed: seq<VirtualNetwork>, subnets: seq<Subnet>, gateways: seq<Gateway>,
                                       networks: seq<VirtualNetwork>, n: VirtualNetwork)
    requires n in placed && SubnetsOf(subnets, n.id) != []
    ensures TableFor(n, SubnetsOf(subnets, n.id), gateways, networks) in TablesOf(placed, subnets, gateways, networks)
  {
    var front := placed[..|placed| - 1];
    if n in front {
      TableListed(front, subnets, gateways, networks, n);
    } else {
      assert n == placed[|placed| - 1];
    }
  }

  lemma {:induction false} TableFrom(placed: seq<VirtualNetwork>, subnets: seq<Subnet>, gateways: seq<Gateway>,
                                     networks: seq<VirtualNetwork>, table: RouteTable) returns (n: VirtualNetwork)
    requires table in TablesOf(placed, subnets, gateways, networks)
    ensures n in placed && table == TableFor(n, SubnetsOf(subnets, n.id), gateways, networks)
  {
    var front := placed[..|placed| - 1];
    if table in TablesOf(front, subnets, gateways, networks) {
      n := TableFrom(front, subnets, gateways, networks, table);
    } else {
      n := placed[|placed| - 1];
    }
  }

  lemma {:induction false} PeerTarget(n: VirtualNetwork, peers: seq<string>, target: string, networks: seq<VirtualNetwork>)
    ensures forall r <- PeerRoutes(n, peers, target, networks) :: r.targetRef == target
  {
    if peers != [] {
      PeerTarget(n, peers[..|peers| - 1], target, networks);
    }
  }

  lemma {:induction false} TransportTarget(n: VirtualNetwork, gateways: seq<Gateway>, networks: seq<VirtualNetwork>, r: Route)
    requires r in TransportRoutes(n, gateways, networks)
    ensures exists g <- gateways :: g.id == r.targetRef
  {
    var front, last := gateways[..|gateways| - 1], gateways[|gateways| - 1];
    if r in TransportRoutes(n, front, networks) {
      TransportTarget(n, front, networks, r);
      var g :| g in front && g.id == r.targetRef;
      assert g in gateways;
    } else {
      PeerTarget(n, last.peerNetworkIds, last.id, networks);
    }
  }

  lemma RouteTarget(n: VirtualNetwork, gateways: seq<Gateway>, networks: seq<VirtualNetwork>, r: Route)
    requires r in DefaultRoutes(n, gateways) + TransportRoutes(n, gateways, networks)
    ensures exists g <- gateways :: g.id == r.targetRef
  {
    if r in TransportRoutes(n, gateways, networks) {
      TransportTarget(n, gateways, networks, r);
    }
  }

  /** Every route leads to a gateway of the architecture. */
  lemma RouteTargetsExist(t: Translation, n: VirtualNetwork, r: Route)
    requires t.Valid() && r in RoutesOf(t, n)
    ensures r.targetRef in t.Infra().ResourceIds()
  {
    RouteTarget(n, t.Gateways(), t.Networks(), r);
    var g :| g in t.Gateways() && g.id == r.targetRef;
    GatewayIsResource(t.Infra(), g);
  }

  lemma GatewayIsResource(infra: Infrastructure, g: Gateway)
    requires g in infra.gateways
    ensures g.id in infra.ResourceIds()
  {
    var j :| 0 <= j < |infra.gateways| && infra.gateways[j] == g;
    assert infra.ResourceIds()[|infra.networks| + |infra.subnets| + |infra.routeTables| + j] == g.id;
  }

  /** Every subnet has the table of its network. */
  lemma SubnetHasTable(t: Translation, s: Subnet)
    requires t.Valid() && s in t.Subnets()
    ensures exists table <- t.Infra().routeTables :: s.id in table.associatedSubnetIds
  {
    var v, k := SubnetOrigin(t, s);
    NetworkListed(t.arch, t.domains, t.covers, t.names, k);
    var n := NetworkFor(t.arch, t.domains[k].routerId, t.covers[k].value, t.names);
    var own := SubnetsOf(t.Subnets(), n.id);
    assert s in own;
    TableListed(t.Networks(), t.Subnets(), t.Gateways(), t.Networks(), n);
    var j :| 0 <= j < |own| && own[j] == s;
    assert SubnetIds(own)[j] == s.id;
  }

  predicate TargetsExist(infra: Infrastructure, table: RouteTable) {
    forall r <- table.routes :: r.targetRef in infra.ResourceIds()
  }

  predicate HasTable(infra: Infrastructure, s: Subnet) {
    exists table <- infra.routeTables :: s.id in table.associatedSubnetIds
  }

  predicate IsComplete(g: Gateway) {
    (g.kind.Nat? ==> g.subnetId.Some?) && (g.kind.Peering? ==> |g.peerNetworkIds| == 2)
  }

  lemma NothingElseReported(infra: Infrastructure, issues: seq<Issue>)
    requires RouteReport(issues, infra)
    requires forall table <- infra.routeTables :: TargetsExist(infra, table)
    requires forall s <- infra.subnets :: HasTable(infra, s)
    requires forall g <- infra.gateways :: IsComplete(g)
    ensures forall i <- issues :: i.DuplicateRouteDestination?
  {
  }

  /** The only thing the route table validator can report of an assembled architecture is a
      repeated destination: every target exists, every subnet has a table, every NAT gateway has
      a subnet and every peering joins two networks. */
  lemma OnlyRepeatedDestinations(t: Translation, issues: seq<Issue>)
    requires t.Valid() && RouteReport(issues, t.Infra())
    ensures forall i <- issues :: i.DuplicateRouteDestination?
  {
    forall table | table in t.Infra().routeTables ensures TargetsExist(t.Infra(), table) {
      var n := TableFrom(t.Networks(), t.Subnets(), t.Gateways(), t.Networks(), table);
      forall r | r in table.routes ensures r.targetRef in t.Infra().ResourceIds() {
        RouteTargetsExist(t, n, r);
      }
    }
    forall s | s in t.Subnets() ensures HasTable(t.Infra(), s) {
      SubnetHasTable(t, s);
    }
    forall g | g in t.Gateways() ensures IsComplete(g) {
      GatewayKinds(t, g);
    }
    NothingElseReported(t.Infra(), issues);
  }

  predicate SomeBlocksCoincide(networks: seq<VirtualNetwork>) {
    exists j, k :: 0 <= j < k < |networks| && networks[j].cidr == networks[k].cidr
  }

  /** What the plan and the blocks decide: peering and transit together, two of three or more
      blocks alike under transit, or a block that is everything beside a default route. */
  predicate RoutesClash(links: Links, networks: seq<VirtualNetwork>) {
    || (links.peering && links.transit)
    || (links.transit && |networks| >= 3 && SomeBlocksCoincide(networks))
    || (links.wayOut && (links.peering || links.transit) && exists n <- networks :: n.cidr == DEFAULT_ROUTE)
  }

  lemma ThirdNetwork(networks: seq<VirtualNetwork>, n: VirtualNetwork)
    requires n in networks && OthersCoincide(n.id, networks)
    ensures |networks| >= 3 && SomeBlocksCoincide(networks)
  {
    var j, k :| 0 <= j < k < |networks| && networks[j].id != n.id && networks[k].id != n.id
                && networks[j].cidr == networks[k].cidr;
    var m :| 0 <= m < |networks| && networks[m] == n;
  }

  lemma ClashFromTable(links: Links, networks: seq<VirtualNetwork>, n: VirtualNetwork)
    requires n in networks && TableClashes(links, networks, n.id)
    ensures RoutesClash(links, networks)
  {
    if links.transit && OthersCoincide(n.id, networks) {
      ThirdNetwork(networks, n);
    }
  }

  lemma AnotherIndex(networks: seq<VirtualNetwork>, j: nat, k: nat) returns (m: nat)
    requires |networks| >= 3 || (|networks| >= 2 && j == k)
    ensures m < |networks| && m != j && m != k
  {
    m := if j != 0 && k != 0 then 0 else if j != 1 && k != 1 then 1 else 2;
  }

  lemma CoincidenceSeen(networks: seq<VirtualNetwork>) returns (n: VirtualNetwork)
    requires IdsDistinct(networks) && |networks| >= 3 && SomeBlocksCoincide(networks)
    ensures n in networks && OthersCoincide(n.id, networks)
  {
    var j, k :| 0 <= j < k < |networks| && networks[j].cidr == networks[k].cidr;
    var m := AnotherIndex(networks, j, k);
    n := networks[m];
    assert networks[j].id != n.id && networks[k].id != n.id;
  }

  lemma TableFromClash(links: Links, networks: seq<VirtualNetwork>) returns (n: VirtualNetwork)
    requires IdsDistinct(networks) && RoutesClash(links, networks)
    requires links.peering || links.transit ==> |networks| >= 2
    ensures n in networks && TableClashes(links, networks, n.id)
  {
    if links.peering && links.transit {
      n := networks[0];
      assert networks[1] in networks;
    } else if links.transit && |networks| >= 3 && SomeBlocksCoincide(networks) {
      n := CoincidenceSeen(networks);
    } else {
      var everything :| everything in networks && everything.cidr == DEFAULT_ROUTE;
      var j :| 0 <= j < |networks| && networks[j] == everything;
      var m := AnotherIndex(networks, j, j);
      n := networks[m];
    }
  }

  lemma RepeatReported(issues: seq<Issue>, infra: Infrastructure, table: RouteTable)
    requires RouteReport(issues, infra) && table in infra.routeTables && HasRepeatedDestination(table.routes)
    ensures DuplicateRouteDestination(table.id) in issues
  {
    assert TableIssue(DuplicateRouteDestination(table.id), table, set id <- infra.ResourceIds());
  }

  lemma ReportedRepeat(issues: seq<Issue>, infra: Infrastructure, i: Issue) returns (table: RouteTable)
    requires RouteReport(issues, infra) && i in issues && i.DuplicateRouteDestination?
    ensures table in infra.routeTables && HasRepeatedDestination(table.routes)
  {
    table :| table in infra.routeTables && TableIssue(i, table, set id <- infra.ResourceIds());
  }

  lemma TableOf(t: Translation, n: VirtualNetwork) returns (table: RouteTable)
    requires t.Valid() && n in t.Networks()
    ensures table in t.Infra().routeTables && table.routes == RoutesOf(t, n)
  {
    NetworkHasSubnet(t, n);
    TableListed(t.Networks(), t.Subnets(), t.Gateways(), t.Networks(), n);
    table := TableFor(n, SubnetsOf(t.Subnets(), n.id), t.Gateways(), t.Networks());
  }

  /** The route table validator accepts an assembled architecture exactly when its routes do
      not clash. */
  lemma RoutesAcceptedIff(t: Translation, issues: seq<Issue>)
    requires Accepted(t) && RouteReport(issues, t.Infra())
    ensures issues == [] <==> !RoutesClash(LinksOf(t), t.Networks())
  {
    OnlyRepeatedDestinations(t, issues);
    if issues != [] {
      var table := ReportedRepeat(issues, t.Infra(), issues[0]);
      var n := TableFrom(t.Networks(), t.Subnets(), t.Gateways(), t.Networks(), table);
      TableRepeats(t, n);
      ClashFromTable(LinksOf(t), t.Networks(), n);
    }
    if RoutesClash(LinksOf(t), t.Networks()) {
      IdsApart(t);
      var n := TableFromClash(LinksOf(t), t.Networks());
      TableRepeats(t, n);
      var table := TableOf(t, n);
      RepeatReported(issues, t.Infra(), table);
    }
  }
}
