/**
 The validators and the mappers together. The generator refuses an architecture whose validation
 found an error, so what matters is what can still be dropped after an error-free validation, and
 whether anything emitted refers to it.
 */
module ValidatedTerraform {
  import opened Wrappers
  import opened Addressing
  import opened CloudModel
  import opened CloudValidators
  import CloudAssembler
  import Segments
  import Lists
  import opened Terraform
  import opened TerraformMapping
  import opened TerraformScoping
  import opened TerraformTheorems

  datatype Reports = Reports(subnets: seq<Issue>, placement: seq<Issue>, routes: seq<Issue>)

  /** The architecture could be constructed and these are what the validators report of it. */
  ghost predicate Validated(infra: Infrastructure, reports: Reports) {
    && CloudAssembler.Admissible(infra)
    && SubnetReport(reports.subnets, infra)
    && PlacementReport(reports.placement, infra)
    && RouteReport(reports.routes, infra)
  }

  predicate ErrorFree(reports: Reports) {
    NoErrors(reports.subnets) && NoErrors(reports.placement) && NoErrors(reports.routes)
  }

  // ---------- What can be dropped ----------

  /** The id of some resource, and not empty. */
  predicate Names(index: Index, id: Option<string>) {
    FindGiven(index, id).Some?
  }

  /** What is dropped although no validator objects: a VPN or virtual private gateway, an internet
      gateway on no known network, a NAT gateway in an unknown subnet, a peering with an unknown
      network, a route table or security group of an unknown network, a database with fewer than two
      known subnets, a load balancer with none, and an instance whose first subnet id is empty. */
  predicate DroppedUnnoticed(index: Index, r: CloudResource) {
    match r
    case OfNetwork(_) => false
    case OfSubnet(_) => false
    case OfTable(t) => t.networkId !in index
    case OfGroup(g) => g.networkId !in index
    case OfGateway(g) =>
      (match g.kind
       case Internet => !Names(index, g.networkId)
       case Nat => g.subnetId.Some? && !Names(index, g.subnetId)
       case Peering => |g.peerNetworkIds| == 2 && (g.peerNetworkIds[0] !in index || g.peerNetworkIds[1] !in index)
       case Transit => false
       case Vpn => true
       case VirtualPrivate => true)
    case OfCompute(c) => IsPlaced(c) && (PrimarySubnet(c) == None || PrimarySubnet(c) == Some(""))
    case OfDatabase(d) => KnownCount(index, d.subnetIds) < 2
    case OfBalancer(b) => KnownCount(index, b.subnetIds) == 0
  }

  function KnownCount(index: Index, ids: seq<string>): nat {
    if ids == [] then 0
    else KnownCount(index, ids[..|ids| - 1]) + if ids[|ids| - 1] in index then 1 else 0
  }

  lemma {:induction false} KnownAreFound(index: Index, ids: seq<string>)
    ensures |Lists.FilterMap(ids, Finder(index))| == KnownCount(index, ids)
  {
    if ids != [] {
      KnownAreFound(index, ids[..|ids| - 1]);
    }
  }

  lemma NetworkIndexed(infra: Infrastructure, n: VirtualNetwork)
    requires n in infra.networks
    ensures n.id in TheIndex(infra)
  {
    assert OfNetwork(n) in Networks(infra);
    assert OfNetwork(n) in Resources(infra);
    IndexMeans(Resources(infra), n.id);
  }

  lemma SubnetIndexed(infra: Infrastructure, s: Subnet)
    requires s in infra.subnets
    ensures s.id in TheIndex(infra)
  {
    assert OfSubnet(s) in Subnets(infra);
    assert OfSubnet(s) in Resources(infra);
    IndexMeans(Resources(infra), s.id);
  }

  lemma SubnetNeverDropped(infra: Infrastructure, s: Subnet)
    requires CloudAssembler.Admissible(infra) && s in infra.subnets
    ensures Emitted(TheIndex(infra), OfSubnet(s))
  {
    NetworkIndexed(infra, NetworkById(infra.networks, s.networkId).value);
  }

  lemma SubnetIdKnown(infra: Infrastructure, id: string)
    requires SubnetById(infra.subnets, id).Some?
    ensures id in TheIndex(infra)
  {
    SubnetIndexed(infra, SubnetById(infra.subnets, id).value);
  }

  lemma PrimaryKnown(infra: Infrastructure, c: ComputeInstance)
    requires CloudAssembler.Admissible(infra) && c in infra.compute && PrimarySubnet(c).Some?
    ensures PrimarySubnet(c).value in TheIndex(infra)
  {
    if c.subnetId.Some? && c.subnetId.value != "" {
      SubnetIdKnown(infra, c.subnetId.value);
    } else {
      assert c.interfaces[0] in c.interfaces;
      SubnetIdKnown(infra, c.interfaces[0].subnetId);
    }
  }

  lemma InstancePlaced(infra: Infrastructure, issues: seq<Issue>, c: ComputeInstance)
    requires PlacementReport(issues, infra) && NoErrors(issues) && c in infra.compute
    ensures IsPlaced(c)
  {
    var k :| 0 <= k < |infra.compute| && infra.compute[k] == c;
    NoPlacementErrors(issues, infra, ComputeNotPlaced(c.id), k);
  }

  lemma InstanceDroppedIff(infra: Infrastructure, reports: Reports, c: ComputeInstance)
    requires Validated(infra, reports) && ErrorFree(reports) && c in infra.compute
    ensures !Emitted(TheIndex(infra), OfCompute(c)) <==> DroppedUnnoticed(TheIndex(infra), OfCompute(c))
  {
    InstancePlaced(infra, reports.placement, c);
    if PrimarySubnet(c).Some? {
      PrimaryKnown(infra, c);
    }
    PlacedInstance(TheIndex(infra), c);
  }

  lemma PlacedInstance(index: Index, c: ComputeInstance)
    requires IsPlaced(c) && (PrimarySubnet(c).Some? ==> PrimarySubnet(c).value in index)
    ensures !Emitted(index, OfCompute(c)) <==> DroppedUnnoticed(index, OfCompute(c))
  {
  }

  lemma GatewayUnflagged(infra: Infrastructure, issues: seq<Issue>, g: Gateway, i: Issue)
    requires RouteReport(issues, infra) && NoErrors(issues) && g in infra.gateways && i.IsError()
    ensures !GatewayIssue(i, g)
  {
    assert GatewayIssue(i, g) ==> i in issues;
  }

  lemma GatewayDroppedIff(infra: Infrastructure, reports: Reports, g: Gateway)
    requires Validated(infra, reports) && ErrorFree(reports) && g in infra.gateways
    ensures !Emitted(TheIndex(infra), OfGateway(g)) <==> DroppedUnnoticed(TheIndex(infra), OfGateway(g))
  {
    GatewayUnflagged(infra, reports.routes, g, NatGatewayWithoutSubnet(g.id));
    GatewayUnflagged(infra, reports.routes, g, PeeringArity(g.id));
    UnflaggedGateway(TheIndex(infra), g);
  }

  lemma UnflaggedGateway(index: Index, g: Gateway)
    requires !GatewayIssue(NatGatewayWithoutSubnet(g.id), g) && !GatewayIssue(PeeringArity(g.id), g)
    ensures !Emitted(index, OfGateway(g)) <==> DroppedUnnoticed(index, OfGateway(g))
  {
    if g.kind.Peering? {
      assert g.peerNetworkIds == [g.peerNetworkIds[0], g.peerNetworkIds[1]];
    }
  }

  /** After an error-free validation, these and no others are dropped. */
  lemma ValidatedDropsIff(infra: Infrastructure, reports: Reports, r: CloudResource)
    requires Validated(infra, reports) && ErrorFree(reports) && r in Resources(infra)
    ensures !IsEmitted(infra, r) <==> DroppedUnnoticed(TheIndex(infra), r)
  {
    ResourceIsPart(infra, r);
    match r {
      case OfSubnet(s) => SubnetNeverDropped(infra, s);
      case OfGateway(g) => GatewayDroppedIff(infra, reports, g);
      case OfCompute(c) => InstanceDroppedIff(infra, reports, c);
      case OfDatabase(d) => KnownAreFound(TheIndex(infra), d.subnetIds);
      case OfBalancer(b) =>
        KnownAreFound(TheIndex(infra), b.subnetIds);
        FoundIff(TheIndex(infra), b.subnetIds);
      case _ =>
    }
  }

  /** No resource that is emitted uses one that is dropped unnoticed. */
  predicate NoneUnnoticed(infra: Infrastructure) {
    forall r <- Resources(infra), s <- Resources(infra) ::
      !DroppedUnnoticed(TheIndex(infra), r) && DroppedUnnoticed(TheIndex(infra), s)
      ==> s.Id() !in UsedIds(infra, TheIndex(infra), r)
  }

  /** For an architecture the validators accept, the generated Terraform is well scoped exactly when
      nothing that stays uses one of the resources that go unnoticed, and image expressions resolve. */
  lemma ValidatedScopedIff(infra: Infrastructure, reports: Reports)
    requires Validated(infra, reports) && ErrorFree(reports) && LabelsApart(infra) && ImagesReadable(infra)
    ensures WellScoped(ProjectOf(infra)) <==> NoneUnnoticed(infra) && ImagesResolve(infra)
  {
    WellScopedIff(infra);
    forall r | r in Resources(infra) ensures !IsEmitted(infra, r) <==> DroppedUnnoticed(TheIndex(infra), r) {
      ValidatedDropsIff(infra, reports, r);
    }
  }

  // ---------- All of them can be referred to ----------

  /** One more route table, which sends everything to `target`. */
  function TableTo(id: string, n: VirtualNetwork, target: string): RouteTable {
    RouteTable(id, n.id, [Route(DEFAULT_ROUTE, target)], [])
  }

  function WithTable(infra: Infrastructure, t: RouteTable): Infrastructure {
    infra.(routeTables := infra.routeTables + [t])
  }

  /** The ids of these resources, in order. */
  predicate AreIds(ids: seq<string>, resources: seq<CloudResource>) {
    |ids| == |resources| && forall k | 0 <= k < |ids| :: ids[k] == resources[k].Id()
  }

  lemma IdsAppended(a: seq<string>, r: seq<CloudResource>, b: seq<string>, s: seq<CloudResource>)
    requires AreIds(a, r) && AreIds(b, s)
    ensures AreIds(a + b, r + s)
  {
  }

  function FrontIds(infra: Infrastructure): seq<string> {
    seq(|infra.networks|, i requires 0 <= i < |infra.networks| => infra.networks[i].id)
    + seq(|infra.subnets|, i requires 0 <= i < |infra.subnets| => infra.subnets[i].id)
    + seq(|infra.routeTables|, i requires 0 <= i < |infra.routeTables| => infra.routeTables[i].id)
    + seq(|infra.gateways|, i requires 0 <= i < |infra.gateways| => infra.gateways[i].id)
  }

  function BackIds(infra: Infrastructure): seq<string> {
    seq(|infra.compute|, i requires 0 <= i < |infra.compute| => infra.compute[i].id)
    + seq(|infra.databases|, i requires 0 <= i < |infra.databases| => infra.databases[i].id)
    + seq(|infra.loadBalancers|, i requires 0 <= i < |infra.loadBalancers| => infra.loadBalancers[i].id)
    + seq(|infra.securityGroups|, i requires 0 <= i < |infra.securityGroups| => infra.securityGroups[i].id)
  }

  lemma FrontIdsOf(infra: Infrastructure)
    ensures AreIds(FrontIds(infra), Networks(infra) + Subnets(infra) + Tables(infra) + Gateways(infra))
  {
    var n := seq(|infra.networks|, i requires 0 <= i < |infra.networks| => infra.networks[i].id);
    var s := seq(|infra.subnets|, i requires 0 <= i < |infra.subnets| => infra.subnets[i].id);
    var t := seq(|infra.routeTables|, i requires 0 <= i < |infra.routeTables| => infra.routeTables[i].id);
    var g := seq(|infra.gateways|, i requires 0 <= i < |infra.gateways| => infra.gateways[i].id);
    IdsAppended(n, Networks(infra), s, Subnets(infra));
    IdsAppended(n + s, Networks(infra) + Subnets(infra), t, Tables(infra));
    IdsAppended(n + s + t, Networks(infra) + Subnets(infra) + Tables(infra), g, Gateways(infra));
  }

  lemma BackIdsOf(infra: Infrastructure)
    ensures AreIds(BackIds(infra), Instances(infra) + Databases(infra) + Balancers(infra) + Groups(infra))
  {
    var c := seq(|infra.compute|, i requires 0 <= i < |infra.compute| => infra.compute[i].id);
    var d := seq(|infra.databases|, i requires 0 <= i < |infra.databases| => infra.databases[i].id);
    var b := seq(|infra.loadBalancers|, i requires 0 <= i < |infra.loadBalancers| => infra.loadBalancers[i].id);
    var p := seq(|infra.securityGroups|, i requires 0 <= i < |infra.securityGroups| => infra.securityGroups[i].id);
    IdsAppended(c, Instances(infra), d, Databases(infra));
    IdsAppended(c + d, Instances(infra) + Databases(infra), b, Balancers(infra));
    IdsAppended(c + d + b, Instances(infra) + Databases(infra) + Balancers(infra), p, Groups(infra));
  }

  lemma IdsRegrouped(infra: Infrastructure)
    ensures infra.ResourceIds() == FrontIds(infra) + BackIds(infra)
  {
  }

  lemma ResourcesRegrouped(infra: Infrastructure)
    ensures Resources(infra) == (Networks(infra) + Subnets(infra) + Tables(infra) + Gateways(infra))
                                + (Instances(infra) + Databases(infra) + Balancers(infra) + Groups(infra))
  {
  }

  lemma IdsOfResources(infra: Infrastructure)
    ensures AreIds(infra.ResourceIds(), Resources(infra))
  {
    FrontIdsOf(infra);
    BackIdsOf(infra);
    IdsRegrouped(infra);
    ResourcesRegrouped(infra);
    IdsAppended(FrontIds(infra), Networks(infra) + Subnets(infra) + Tables(infra) + Gateways(infra), BackIds(infra),
                Instances(infra) + Databases(infra) + Balancers(infra) + Groups(infra));
  }

  lemma IdListed(infra: Infrastructure, r: CloudResource)
    requires r in Resources(infra)
    ensures r.Id() in infra.ResourceIds()
  {
    IdsOfResources(infra);
    var k :| 0 <= k < |Resources(infra)| && Resources(infra)[k] == r;
    assert infra.ResourceIds()[k] == r.Id();
  }

  lemma IdOfSome(infra: Infrastructure, id: string) returns (r: CloudResource)
    requires id in infra.ResourceIds()
    ensures r in Resources(infra) && r.Id() == id
  {
    IdsOfResources(infra);
    var k :| 0 <= k < |infra.ResourceIds()| && infra.ResourceIds()[k] == id;
    r := Resources(infra)[k];
  }

  lemma OldIdsStay(infra: Infrastructure, t: RouteTable)
    ensures forall id <- infra.ResourceIds() :: id in WithTable(infra, t).ResourceIds()
  {
    forall id | id in infra.ResourceIds() ensures id in WithTable(infra, t).ResourceIds() {
      var r := IdOfSome(infra, id);
      StaysResource(infra, t, r);
      IdListed(WithTable(infra, t), r);
    }
  }

  lemma StaysResource(infra: Infrastructure, t: RouteTable, r: CloudResource)
    requires r in Resources(infra)
    ensures r in Resources(WithTable(infra, t))
  {
    ResourceIsPart(infra, r);
    PartIsListed(WithTable(infra, t), r);
  }

  function IdSet(infra: Infrastructure): set<string> {
    set id <- infra.ResourceIds()
  }

  lemma TableUnflagged(infra: Infrastructure, issues: seq<Issue>, table: RouteTable, i: Issue)
    requires RouteReport(issues, infra) && NoErrors(issues) && table in infra.routeTables
    ensures !TableIssue(i, table, IdSet(infra))
  {
    assert TableIssue(i, table, set id <- infra.ResourceIds()) ==> i in issues;
  }

  lemma MoreIdsNoIssue(i: Issue, table: RouteTable, ids: set<string>, more: set<string>)
    requires !TableIssue(RouteTargetMissing(table.id), table, ids) && !TableIssue(i, table, ids) && ids <= more
    ensures !TableIssue(i, table, more)
  {
  }

  lemma ExtraUnflagged(infra: Infrastructure, id: string, n: VirtualNetwork, s: CloudResource, i: Issue)
    requires s in Resources(infra)
    ensures !TableIssue(i, TableTo(id, n, s.Id()), IdSet(WithTable(infra, TableTo(id, n, s.Id()))))
  {
    var t := TableTo(id, n, s.Id());
    IdListed(infra, s);
    OldIdsStay(infra, t);
    assert !HasRepeatedDestination(t.routes);
  }

  lemma TablesStayUnflagged(infra: Infrastructure, issues: seq<Issue>, id: string, n: VirtualNetwork, s: CloudResource,
                            i: Issue, table: RouteTable)
    requires RouteReport(issues, infra) && NoErrors(issues) && s in Resources(infra)
    requires table in WithTable(infra, TableTo(id, n, s.Id())).routeTables
    ensures !TableIssue(i, table, IdSet(WithTable(infra, TableTo(id, n, s.Id()))))
  {
    var extra := TableTo(id, n, s.Id());
    if table == extra {
      ExtraUnflagged(infra, id, n, s, i);
    } else {
      TableUnflagged(infra, issues, table, i);
      TableUnflagged(infra, issues, table, RouteTargetMissing(table.id));
      OldIdsStay(infra, extra);
      MoreIdsNoIssue(i, table, IdSet(infra), IdSet(WithTable(infra, extra)));
    }
  }

  /** The new table changes no report. */
  lemma RoutesStillReported(infra: Infrastructure, issues: seq<Issue>, id: string, n: VirtualNetwork, s: CloudResource)
    requires RouteReport(issues, infra) && NoErrors(issues) && s in Resources(infra)
    ensures RouteReport(issues, WithTable(infra, TableTo(id, n, s.Id())))
  {
    var more := WithTable(infra, TableTo(id, n, s.Id()));
    forall i ensures i in issues <==>
                       || (exists t <- more.routeTables :: TableIssue(i, t, set x <- more.ResourceIds()))
                       || (exists x <- more.subnets :: i == SubnetWithoutRouteTable(x.id)
                                                       && !exists t <- more.routeTables :: x.id in t.associatedSubnetIds)
                       || (exists g <- more.gateways :: GatewayIssue(i, g))
    {
      forall t | t in more.routeTables ensures !TableIssue(i, t, set x <- more.ResourceIds()) {
        TablesStayUnflagged(infra, issues, id, n, s, i, t);
      }
      forall t | t in infra.routeTables ensures !TableIssue(i, t, set x <- infra.ResourceIds()) {
        TableUnflagged(infra, issues, t, i);
      }
      forall x | x in infra.subnets
        ensures (exists t <- infra.routeTables :: x.id in t.associatedSubnetIds)
                <==> exists t <- more.routeTables :: x.id in t.associatedSubnetIds
      {
        SameAssociation(infra, id, n, s.Id(), x.id);
      }
    }
  }

  lemma SameAssociation(infra: Infrastructure, id: string, n: VirtualNetwork, target: string, x: string)
    ensures (exists t <- infra.routeTables :: x in t.associatedSubnetIds)
            <==> exists t <- WithTable(infra, TableTo(id, n, target)).routeTables :: x in t.associatedSubnetIds
  {
    var tables := WithTable(infra, TableTo(id, n, target)).routeTables;
    assert forall t :: t in tables <==> t in infra.routeTables || t == TableTo(id, n, target);
  }

  /** Every one of them can be referred to: a further table that routes to it passes validation and
      leaves a reference that nothing declares. */
  lemma UnnoticedCanDangle(infra: Infrastructure, reports: Reports, id: string, n: VirtualNetwork, s: CloudResource)
    requires Validated(infra, reports) && ErrorFree(reports) && n in infra.networks && s in Resources(infra)
    requires var more := WithTable(infra, TableTo(id, n, s.Id()));
             && Segments.AllDistinct(more.ResourceIds()) && LabelsApart(more)
             && DroppedUnnoticed(TheIndex(more), s)
    ensures var more := WithTable(infra, TableTo(id, n, s.Id()));
            Validated(more, reports) && !WellScoped(ProjectOf(more))
  {
    var t := TableTo(id, n, s.Id());
    var more := WithTable(infra, t);
    RoutesStillReported(infra, reports.routes, id, n, s);
    StaysResource(infra, t, s);
    ValidatedDropsIff(more, reports, s);
    NetworkIndexed(more, n);
    assert t in more.routeTables && t.routes[0] in t.routes;
    DroppedTargetBreaks(more, s, t, t.routes[0]);
  }

  // ---------- A gateway the validators accept and the mappers drop ----------

  /** One network, whose table sends everything to a VPN gateway. */
  function Branch(block: SubnetSpec): Infrastructure {
    Infrastructure([VirtualNetwork("office", block, [], [])], [],
                   [RouteTable("table", "office", [Route(DEFAULT_ROUTE, "vpn")], [])],
                   [Gateway("vpn", Vpn, Some("office"), None, [])], [], [], [], [])
  }

  lemma BranchResources(block: SubnetSpec)
    ensures var infra := Branch(block);
            Resources(infra) == [OfNetwork(infra.networks[0]), OfTable(infra.routeTables[0]), OfGateway(infra.gateways[0])]
  {
    var infra := Branch(block);
    assert Networks(infra) == [OfNetwork(infra.networks[0])];
    assert Tables(infra) == [OfTable(infra.routeTables[0])] && Gateways(infra) == [OfGateway(infra.gateways[0])];
    assert Subnets(infra) == [] && Instances(infra) == [] && Databases(infra) == [] && Balancers(infra) == []
        && Groups(infra) == [];
  }

  lemma BranchIds(block: SubnetSpec)
    ensures Branch(block).ResourceIds() == ["office", "table", "vpn"]
    ensures Segments.AllDistinct(Branch(block).ResourceIds())
    ensures "office" != "table" && "table" != "vpn" && "office" != "vpn"
  {
    assert Branch(block).ResourceIds() == ["office", "table", "vpn"];
    assert "office"[0] == 'o' && "table"[0] == 't' && "vpn"[0] == 'v';
  }

  lemma BranchRoutes(block: SubnetSpec)
    ensures RouteReport([], Branch(block))
  {
    var infra := Branch(block);
    BranchIds(block);
    assert "vpn" == infra.ResourceIds()[2];
    assert !HasRepeatedDestination(infra.routeTables[0].routes);
  }

  lemma BranchLabels(block: SubnetSpec)
    ensures LabelsApart(Branch(block))
  {
    var infra := Branch(block);
    BranchResources(block);
    BranchIds(block);
    VpnSiteApart(infra, OfNetwork(infra.networks[0]), OfTable(infra.routeTables[0]), OfGateway(infra.gateways[0]));
  }

  lemma VpnSiteApart(infra: Infrastructure, n: CloudResource, t: CloudResource, g: CloudResource)
    requires Resources(infra) == [n, t, g] && n.OfNetwork? && t.OfTable? && g.OfGateway? && g.gateway.kind.Vpn?
    requires n.Id() != t.Id() && t.Id() != g.Id() && n.Id() != g.Id()
    ensures LabelsApart(infra)
  {
    ApartByKind(n, t, g);
    ThreeApart(infra, n, t, g);
  }

  lemma ThreeApart(infra: Infrastructure, a: CloudResource, b: CloudResource, c: CloudResource)
    requires Resources(infra) == [a, b, c] && a.At() != b.At() && b.At() != c.At() && a.At() != c.At()
    requires a.Id() != b.Id() && b.Id() != c.Id() && a.Id() != c.Id()
    ensures LabelsApart(infra)
  {
  }

  lemma ApartByKind(n: CloudResource, t: CloudResource, g: CloudResource)
    requires n.OfNetwork? && t.OfTable? && g.OfGateway? && g.gateway.kind.Vpn?
    ensures n.At() != t.At() && t.At() != g.At() && n.At() != g.At()
  {
    assert n.At().kind[6] == 'c' && t.At().kind[6] == 'u' && g.At().kind[6] == 'n';
  }

  lemma BranchAccepted(block: SubnetSpec)
    ensures Validated(Branch(block), Reports([], [], []))
  {
    BranchIds(block);
    BranchRoutes(block);
  }

  /** It passes validation without an error, and its Terraform refers to a gateway that is nowhere. */
  lemma VpnRouteDangles(block: SubnetSpec)
    ensures Validated(Branch(block), Reports([], [], [])) && ErrorFree(Reports([], [], []))
    ensures !WellScoped(ProjectOf(Branch(block)))
  {
    var infra := Branch(block);
    BranchAccepted(block);
    BranchLabels(block);
    BranchResources(block);
    NetworkIndexed(infra, infra.networks[0]);
    DroppedTargetBreaks(infra, OfGateway(infra.gateways[0]), infra.routeTables[0], infra.routeTables[0].routes[0]);
  }
}
