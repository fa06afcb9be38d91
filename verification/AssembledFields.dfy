/** The fields of assembled resources name resources of the right kind. */
module AssembledFields {
  import opened Wrappers
  import opened CloudModel
  import opened NetworkModel
  import opened CloudAssembler
  import opened AssemblerTheorems
  import opened AssemblyMeaning
  import opened RouteTheorems
  import opened FieldKinds

  /** A rule that names the id of some resource names a security group. */
  predicate PeersAreGroups(t: Translation)
    requires |t.covers| == |t.domains|
  {
    forall g <- t.Groups(), r <- g.rules :: RuleRight(t.Infra(), r)
  }

  lemma TableNames(t: Translation, table: RouteTable)
    requires t.Valid() && table in t.Infra().routeTables
    ensures TableRight(t.Infra(), table)
  {
    var n := TableOwner(t, table);
    forall r | r in table.routes ensures IsGateway(t.Infra(), r.targetRef) {
      TargetIsGateway(t, n, r);
    }
    forall id | id in table.associatedSubnetIds ensures IsSubnet(t.Infra(), id) {
      AssociatedSubnet(t, n, table, id);
    }
    TableRightWhen(t.Infra(), n, table);
  }

  lemma TableRightWhen(infra: Infrastructure, n: VirtualNetwork, table: RouteTable)
    requires n in infra.networks && n.id == table.networkId
    requires forall r <- table.routes :: IsGateway(infra, r.targetRef)
    requires forall id <- table.associatedSubnetIds :: IsSubnet(infra, id)
    ensures TableRight(infra, table)
  {
  }

  lemma TableOwner(t: Translation, table: RouteTable) returns (n: VirtualNetwork)
    requires t.Valid() && table in t.Infra().routeTables
    ensures n in t.Networks() && IsTableOf(t, n, table)
  {
    TablesExactly(t, table);
    n :| n in t.Networks() && IsTableOf(t, n, table);
  }

  lemma TargetIsGateway(t: Translation, n: VirtualNetwork, r: Route)
    requires t.Valid() && r in RoutesOf(t, n)
    ensures IsGateway(t.Infra(), r.targetRef)
  {
    RouteTarget(n, t.Gateways(), t.Networks(), r);
  }

  lemma AssociatedSubnet(t: Translation, n: VirtualNetwork, table: RouteTable, id: string)
    requires t.Valid() && IsTableOf(t, n, table) && id in table.associatedSubnetIds
    ensures IsSubnet(t.Infra(), id)
  {
    var k :| 0 <= k < |table.associatedSubnetIds| && table.associatedSubnetIds[k] == id;
    assert SubnetsOf(t.Subnets(), n.id)[k] in t.Subnets();
  }

  lemma GatewayNames(t: Translation, g: Gateway)
    requires t.Valid() && g in t.Gateways()
    ensures GatewayRight(t.Infra(), g)
  {
    GatewaysExactly(t, g);
    if IsSharedGateway(t, g) {
      SharedNames(t, g);
    } else {
      var n :| n in t.Networks() && (IsInternetGateway(t, n, g) || IsNatGateway(t, n, g));
      OwnNames(t, n, g);
    }
  }

  lemma OwnNames(t: Translation, n: VirtualNetwork, g: Gateway)
    requires t.Valid() && n in t.Networks() && (IsInternetGateway(t, n, g) || IsNatGateway(t, n, g))
    ensures GatewayRight(t.Infra(), g)
  {
    if g.kind.Nat? {
      assert IsSubnet(t.Infra(), g.subnetId.value);
    }
  }

  lemma SharedNames(t: Translation, g: Gateway)
    requires t.Valid() && IsSharedGateway(t, g)
    ensures GatewayRight(t.Infra(), g)
  {
    forall id | id in g.peerNetworkIds ensures NetworkOnly(t.Infra(), id) {
      PeerIsNetwork(t, g, id);
    }
  }

  lemma PeerIsNetwork(t: Translation, g: Gateway, id: string)
    requires t.Valid() && IsSharedGateway(t, g) && id in g.peerNetworkIds
    ensures IsNetwork(t.Infra(), id)
  {
    var k :| 0 <= k < |g.peerNetworkIds| && g.peerNetworkIds[k] == id;
    assert t.Networks()[k].id == id;
  }

  lemma InstanceNames(t: Translation, c: ComputeInstance)
    requires t.Valid() && c in t.Instances()
    ensures InstanceRight(t.Infra(), c)
  {
    InstanceSubnets(t, c);
    forall id | id in c.securityGroupIds ensures IsGroup(t.Infra(), id) {
      InstanceGroup(t, c, id);
    }
  }

  lemma InstanceSubnets(t: Translation, c: ComputeInstance)
    requires t.Valid() && c in t.Instances()
    ensures c.subnetId.Some? ==> IsSubnet(t.Infra(), c.subnetId.value)
    ensures forall nic <- c.interfaces :: IsSubnet(t.Infra(), nic.subnetId)
  {
    InstanceKnown(t, c);
  }

  lemma InstanceGroup(t: Translation, c: ComputeInstance, id: string)
    requires t.Valid() && c in t.Instances() && id in c.securityGroupIds
    ensures IsGroup(t.Infra(), id)
  {
    var node := InstanceMeans(t, c);
    var k :| 0 <= k < |c.securityGroupIds| && c.securityGroupIds[k] == id;
    assert t.Groups()[k].id == id;
  }

  lemma GroupNames(t: Translation, g: SecurityGroup)
    requires t.Valid() && PeersAreGroups(t) && g in t.Groups()
    ensures GroupRight(t.Infra(), g)
  {
    GroupsExactly(t, g);
    assert t.Networks()[0].id == g.networkId;
  }

  lemma SubnetNames(t: Translation, s: Subnet)
    requires t.Valid() && s in t.Subnets()
    ensures NetworkOnly(t.Infra(), s.networkId)
  {
    SubnetKnown(t, s);
  }

  /** All of them, given that the rules of the plan do. */
  lemma AssembledFieldsRight(t: Translation)
    requires t.Valid() && PeersAreGroups(t)
    ensures FieldsRight(t.Infra())
  {
    var infra := t.Infra();
    forall s | s in infra.subnets ensures NetworkOnly(infra, s.networkId) {
      SubnetNames(t, s);
    }
    forall table | table in infra.routeTables ensures TableRight(infra, table) {
      TableNames(t, table);
    }
    forall g | g in infra.gateways ensures GatewayRight(infra, g) {
      GatewayNames(t, g);
    }
    forall g | g in infra.securityGroups ensures GroupRight(infra, g) {
      GroupNames(t, g);
    }
    forall c | c in infra.compute ensures InstanceRight(infra, c) {
      InstanceNames(t, c);
    }
  }

  /** The rules of a plan give blocks of addresses, never peer groups. */
  predicate PlainRules(plan: Plan) {
    forall id <- plan.rules, r <- plan.rules[id] :: r.sourceSecurityGroupId == None
  }

  lemma PlainRulesName(t: Translation)
    requires t.Valid() && PlainRules(t.plan)
    ensures PeersAreGroups(t)
  {
    forall g, r | g in t.Groups() && r in g.rules ensures RuleRight(t.Infra(), r) {
      GroupsExactly(t, g);
    }
  }
}
