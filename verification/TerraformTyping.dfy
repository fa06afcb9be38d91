/**
 References are well typed: each argument refers to a block of the Terraform type that it takes,
 exactly when the ids in the fields of the resources name resources of the right kind.
 */
module TerraformTyping {
  import opened CloudModel
  import Decimal
  import opened FieldKinds
  import Lists
  import opened Terraform
  import opened TerraformMapping
  import opened TerraformScoping
  import opened TerraformMeaning
  import opened Wrappers

  /** What each argument takes, by its id. */
  predicate TakesId(key: string, kind: string) {
    || (kind == "aws_vpc" && (key == "vpc_id" || key == "peer_vpc_id"))
    || (kind == "aws_subnet" && (key == "subnet_id" || key == "subnet_ids" || key == "subnets"))
    || (kind == "aws_security_group" && (key == "vpc_security_group_ids" || key == "security_groups"))
    || (kind == "aws_route_table" && key == "route_table_id")
    || (kind == "aws_eip" && key == "allocation_id")
    || (kind == "aws_ec2_transit_gateway" && key == "transit_gateway_id")
    || (kind == "aws_nat_gateway" && key == "nat_gateway_id")
    || (kind == "aws_vpc_peering_connection" && key == "vpc_peering_connection_id")
    || ((kind == "aws_internet_gateway" || kind == "aws_vpn_gateway") && key == "gateway_id")
    || (kind == "aws_instance" && (key == "instance_id" || key == "target_id"))
    || (kind == "aws_network_interface" && key == "network_interface_id")
  }

  /** What each argument takes, and which attribute of it. */
  predicate Takes(key: string, kind: string, attribute: string) {
    || (attribute == "id" && TakesId(key, kind))
    || (attribute == "name" && kind == "aws_db_subnet_group" && key == "db_subnet_group_name")
    || (attribute == "arn" && kind == "aws_lb" && key == "load_balancer_arn")
    || (attribute == "arn" && kind == "aws_lb_target_group" && key == "target_group_arn")
  }

  predicate IsWellTyped(x: Argument) {
    x.fact.Points? ==> Takes(x.key, x.fact.address.kind, x.fact.attribute)
  }

  /** Every reference in main.tf. */
  ghost predicate WellTyped(p: Project) {
    forall x :: Says(p.main, x) ==> IsWellTyped(x)
  }

  // ---------- Which field goes under which argument ----------

  predicate GatewayUses(infra: Infrastructure, index: Index, g: Gateway, key: string, id: string) {
    match g.kind
    case Internet => key == "vpc_id" && g.networkId == Some(id) && id != ""
    case Nat => key == "subnet_id" && g.subnetId == Some(id) && id != ""
    case Peering =>
      && |g.peerNetworkIds| == 2
      && ((key == "vpc_id" && id == g.peerNetworkIds[0]) || (key == "peer_vpc_id" && id == g.peerNetworkIds[1]))
    case Transit => exists n <- g.peerNetworkIds :: AttachmentUses(infra, index, n, key, id)
    case _ => false
  }

  predicate AttachmentUses(infra: Infrastructure, index: Index, networkId: string, key: string, id: string) {
    && networkId in index && SomeSubnetKnown(infra, index, networkId)
    && (|| (key == "vpc_id" && id == networkId)
        || (key == "subnet_ids" && exists s <- infra.subnets :: s.networkId == networkId && s.id == id))
  }

  predicate TableUses(index: Index, t: RouteTable, key: string, id: string) {
    || (key == "vpc_id" && id == t.networkId)
    || (key == "subnet_id" && id in t.associatedSubnetIds)
    || (id in index && RoutesUnder(index[id].kind, key) && exists r <- t.routes :: r.targetRef == id)
  }

  predicate GroupUses(g: SecurityGroup, key: string, id: string) {
    || (key == "vpc_id" && id == g.networkId)
    || (key == "security_groups" && id != "" && exists r <- g.rules :: r.sourceSecurityGroupId == Some(id))
  }

  predicate InstanceUses(c: ComputeInstance, key: string, id: string) {
    || (key == "vpc_security_group_ids" && id in c.securityGroupIds)
    || (key == "subnet_id" && (LivesIn(c, id) || exists nic <- c.interfaces :: !nic.primary && nic.subnetId == id))
  }

  predicate DatabaseUses(d: Database, key: string, id: string) {
    || (key == "subnet_ids" && id in d.subnetIds)
    || (key == "vpc_security_group_ids" && id in d.securityGroupIds)
  }

  predicate BalancerUses(index: Index, b: LoadBalancer, key: string, id: string) {
    || (key == "subnets" && id in b.subnetIds)
    || (key == "security_groups" && b.isApplication && id in b.securityGroupIds)
    || (b.listeners > 0 && b.networkId.Some? && b.networkId.value != "" && b.networkId.value in index
        && ((key == "vpc_id" && id == b.networkId.value) || (key == "target_id" && id in b.targetComputeIds)))
  }

  /** The fields of a resource put an id under an argument. */
  predicate UsesUnder(infra: Infrastructure, index: Index, r: CloudResource, key: string, id: string) {
    match r
    case OfNetwork(_) => false
    case OfSubnet(s) => key == "vpc_id" && id == s.networkId
    case OfTable(t) => TableUses(index, t, key, id)
    case OfGateway(g) => GatewayUses(infra, index, g, key, id)
    case OfGroup(g) => GroupUses(g, key, id)
    case OfCompute(c) => InstanceUses(c, key, id)
    case OfDatabase(d) => DatabaseUses(d, key, id)
    case OfBalancer(b) => BalancerUses(index, b, key, id)
  }

  /** What an id names is what the argument it is under takes. */
  predicate IsRight(infra: Infrastructure, index: Index, r: CloudResource, key: string, id: string) {
    UsesUnder(infra, index, r, key, id) && id in index ==> TakesId(key, index[id].kind)
  }

  /** In every resource that is emitted. */
  ghost predicate RightKinds(infra: Infrastructure) {
    forall r, key, id ::
      IsPart(infra, r) && Emitted(TheIndex(infra), r) ==> IsRight(infra, TheIndex(infra), r, key, id)
  }

  // ---------- Every reference comes from a field, or is to a part of the same resource ----------

  predicate Explained(infra: Infrastructure, index: Index, r: CloudResource, x: Argument) {
    IsWellTyped(x) || exists id <- index :: UsesUnder(infra, index, r, x.key, id) && TerraformMeaning.Names(index, id, x.fact)
  }

  lemma ExplainedBy(infra: Infrastructure, index: Index, r: CloudResource, x: Argument, id: string)
    requires UsesUnder(infra, index, r, x.key, id) && TerraformMeaning.Names(index, id, x.fact)
    ensures Explained(infra, index, r, x)
  {
  }

  lemma ExplainedByOne(infra: Infrastructure, index: Index, r: CloudResource, x: Argument, ids: seq<string>)
    requires NamesOne(index, ids, x.fact) && forall id <- ids :: UsesUnder(infra, index, r, x.key, id)
    ensures Explained(infra, index, r, x)
  {
  }

  lemma TableExplained(infra: Infrastructure, index: Index, t: RouteTable, x: Argument)
    requires TableMeans(index, t, x)
    ensures Explained(infra, index, OfTable(t), x)
  {
    var name := TerraformIdentifier(t.id);
    if id :| id in t.associatedSubnetIds && AssociationMeans(index, name, id, x) {
      if TerraformMeaning.Names(index, id, x.fact) && x.key == "subnet_id" {
        ExplainedBy(infra, index, OfTable(t), x, id);
      }
    } else if r :| r in t.routes && RouteMeans(index, r, x.key, x.fact) && x.place == "route" {
      if x.fact.Points? {
        ExplainedBy(infra, index, OfTable(t), x, r.targetRef);
      }
    } else {
      ExplainedBy(infra, index, OfTable(t), x, t.networkId);
    }
  }

  lemma AttachmentExplained(infra: Infrastructure, index: Index, g: Gateway, n: string, x: Argument)
    requires g.kind.Transit? && n in g.peerNetworkIds && AttachmentMeans(infra, index, TerraformIdentifier(g.id), n, x)
    ensures Explained(infra, index, OfGateway(g), x)
  {
    if x.key == "vpc_id" && TerraformMeaning.Names(index, n, x.fact) {
      assert AttachmentUses(infra, index, n, x.key, n);
      ExplainedBy(infra, index, OfGateway(g), x, n);
    } else if s :| s in infra.subnets && s.networkId == n && TerraformMeaning.Names(index, s.id, x.fact) && x.key == "subnet_ids" {
      assert AttachmentUses(infra, index, n, x.key, s.id);
      ExplainedBy(infra, index, OfGateway(g), x, s.id);
    }
  }

  lemma GatewayExplained(infra: Infrastructure, index: Index, g: Gateway, x: Argument)
    requires GatewayMeans(infra, index, g, x)
    ensures Explained(infra, index, OfGateway(g), x)
  {
    match g.kind
    case Internet => ExplainedBy(infra, index, OfGateway(g), x, g.networkId.value);
    case Nat =>
      if x.key == "subnet_id" && TerraformMeaning.Names(index, g.subnetId.value, x.fact) {
        ExplainedBy(infra, index, OfGateway(g), x, g.subnetId.value);
      }
    case Peering =>
      if x.fact.Points? {
        ExplainedBy(infra, index, OfGateway(g), x, if x.key == "vpc_id" then g.peerNetworkIds[0] else g.peerNetworkIds[1]);
      }
    case Transit =>
      if n :| n in g.peerNetworkIds && AttachmentMeans(infra, index, TerraformIdentifier(g.id), n, x) {
        AttachmentExplained(infra, index, g, n, x);
      }
    case _ =>
  }

  lemma GroupExplained(infra: Infrastructure, index: Index, g: SecurityGroup, x: Argument)
    requires GroupMeans(index, g, x)
    ensures Explained(infra, index, OfGroup(g), x)
  {
    if x.fact.Points? {
      if r :| r in g.rules && RuleMeans(index, r, x.place, x.key, x.fact) {
        ExplainedBy(infra, index, OfGroup(g), x, r.sourceSecurityGroupId.value);
      } else {
        ExplainedBy(infra, index, OfGroup(g), x, g.networkId);
      }
    }
  }

  lemma InstanceExplained(infra: Infrastructure, index: Index, c: ComputeInstance, x: Argument)
    requires InstanceMeans(index, c, x) && x.fact.Points?
    ensures Explained(infra, index, OfCompute(c), x)
  {
    var name := TerraformIdentifier(c.id);
    if nic :| nic in c.interfaces && NicMeans(index, name, c, nic, x) {
      if x.key == "subnet_id" {
        ExplainedBy(infra, index, OfCompute(c), x, nic.subnetId);
      }
    } else if NamesOne(index, c.securityGroupIds, x.fact) && x.key == "vpc_security_group_ids" {
      ExplainedByOne(infra, index, OfCompute(c), x, c.securityGroupIds);
    } else {
      var id :| id in index && LivesIn(c, id) && TerraformMeaning.Names(index, id, x.fact);
      ExplainedBy(infra, index, OfCompute(c), x, id);
    }
  }

  lemma DatabaseExplained(infra: Infrastructure, index: Index, d: Database, x: Argument)
    requires DatabaseMeans(index, d, x)
    ensures Explained(infra, index, OfDatabase(d), x)
  {
    if x.key == "subnet_ids" && NamesOne(index, d.subnetIds, x.fact) {
      ExplainedByOne(infra, index, OfDatabase(d), x, d.subnetIds);
    } else if x.key == "vpc_security_group_ids" && NamesOne(index, d.securityGroupIds, x.fact) {
      ExplainedByOne(infra, index, OfDatabase(d), x, d.securityGroupIds);
    }
  }

  lemma ListenerExplained(infra: Infrastructure, index: Index, b: LoadBalancer, k: nat, x: Argument)
    requires k < b.listeners && b.networkId.Some? && b.networkId.value != "" && b.networkId.value in index
    requires ListenerMeans(index, b, b.networkId.value, k, x)
    ensures Explained(infra, index, OfBalancer(b), x)
  {
    var groupName := TerraformIdentifier(b.id) + "_tg_" + Decimal.Digits(k);
    if x.key == "vpc_id" && TerraformMeaning.Names(index, b.networkId.value, x.fact) {
      ExplainedBy(infra, index, OfBalancer(b), x, b.networkId.value);
    } else if id :| id in b.targetComputeIds && TargetMeans(index, groupName, id, x) {
      if x.key == "target_id" {
        ExplainedBy(infra, index, OfBalancer(b), x, id);
      }
    }
  }

  lemma BalancerExplained(infra: Infrastructure, index: Index, b: LoadBalancer, x: Argument)
    requires BalancerMeans(index, b, x)
    ensures Explained(infra, index, OfBalancer(b), x)
  {
    if x.key == "subnets" && NamesOne(index, b.subnetIds, x.fact) {
      ExplainedByOne(infra, index, OfBalancer(b), x, b.subnetIds);
    } else if x.key == "security_groups" && b.isApplication && NamesOne(index, b.securityGroupIds, x.fact) {
      ExplainedByOne(infra, index, OfBalancer(b), x, b.securityGroupIds);
    } else {
      var k: nat :| k < b.listeners && ListenerMeans(index, b, b.networkId.value, k, x);
      ListenerExplained(infra, index, b, k, x);
    }
  }

  lemma NetworkTyped(n: VirtualNetwork, x: Argument)
    requires NetworkMeans(n, x)
    ensures IsWellTyped(x)
  {
  }

  lemma SubnetExplained(infra: Infrastructure, index: Index, s: Subnet, x: Argument)
    requires SubnetMeans(infra, index, s, x)
    ensures Explained(infra, index, OfSubnet(s), x)
  {
    if x.fact.Points? {
      ExplainedBy(infra, index, OfSubnet(s), x, s.networkId);
    }
  }

  lemma ReferenceExplained(infra: Infrastructure, index: Index, r: CloudResource, x: Argument)
    requires Means(infra, index, r, x)
    ensures Explained(infra, index, r, x)
  {
    match r
    case OfNetwork(n) => NetworkTyped(n, x);
    case OfSubnet(s) => SubnetExplained(infra, index, s, x);
    case OfTable(t) => TableExplained(infra, index, t, x);
    case OfGateway(g) => GatewayExplained(infra, index, g, x);
    case OfGroup(g) => GroupExplained(infra, index, g, x);
    case OfCompute(c) => if x.fact.Points? { InstanceExplained(infra, index, c, x); }
    case OfDatabase(d) => DatabaseExplained(infra, index, d, x);
    case OfBalancer(b) => BalancerExplained(infra, index, b, x);
  }

  // ---------- Every field is referred to ----------

  predicate RefersUnder(index: Index, x: Argument, key: string, id: string) {
    x.key == key && TerraformMeaning.Names(index, id, x.fact)
  }

  lemma TableRefers(index: Index, t: RouteTable, key: string, id: string) returns (x: Argument)
    requires t.networkId in index && TableUses(index, t, key, id) && id in index
    ensures TableMeans(index, t, x) && RefersUnder(index, x, key, id)
  {
    var name, f := TerraformIdentifier(t.id), Points(index[id], "id");
    if key == "vpc_id" && id == t.networkId {
      x := Argument(Locator("aws_route_table", name), TOP, key, f);
    } else if key == "subnet_id" && id in t.associatedSubnetIds {
      x := Argument(Locator("aws_route_table_association", name + "_" + TerraformIdentifier(id)), TOP, key, f);
      assert AssociationMeans(index, name, id, x);
    } else {
      x := Argument(Locator("aws_route_table", name), "route", key, f);
      var r :| r in t.routes && r.targetRef == id;
      assert RouteMeans(index, r, key, f);
    }
  }

  lemma GatewayRefers(infra: Infrastructure, index: Index, g: Gateway, key: string, id: string) returns (x: Argument)
    requires Emitted(index, OfGateway(g)) && GatewayUses(infra, index, g, key, id) && id in index
    ensures GatewayMeans(infra, index, g, x) && RefersUnder(index, x, key, id)
  {
    var name, f := TerraformIdentifier(g.id), Points(index[id], "id");
    match g.kind {
      case Internet => x := Argument(Locator("aws_internet_gateway", name), TOP, key, f);
      case Nat => x := Argument(Locator("aws_nat_gateway", name), TOP, key, f);
      case Peering => x := Argument(Locator("aws_vpc_peering_connection", name), TOP, key, f);
      case Transit =>
        var n :| n in g.peerNetworkIds && AttachmentUses(infra, index, n, key, id);
        x := Argument(Locator("aws_ec2_transit_gateway_vpc_attachment", name + "_" + TerraformIdentifier(n)), TOP, key, f);
        assert AttachmentMeans(infra, index, name, n, x);
    }
  }

  lemma GroupRefers(index: Index, g: SecurityGroup, key: string, id: string) returns (x: Argument)
    requires g.networkId in index && GroupUses(g, key, id) && id in index
    ensures GroupMeans(index, g, x) && RefersUnder(index, x, key, id)
  {
    var at, f := Locator("aws_security_group", TerraformIdentifier(g.id)), Points(index[id], "id");
    if key == "vpc_id" && id == g.networkId {
      x := Argument(at, TOP, key, f);
    } else {
      var r :| r in g.rules && r.sourceSecurityGroupId == Some(id);
      x := Argument(at, if r.ingress then "ingress" else "egress", key, f);
      assert RuleMeans(index, r, x.place, x.key, x.fact);
    }
  }

  lemma InstanceRefers(index: Index, c: ComputeInstance, key: string, id: string) returns (x: Argument)
    requires IsPlacedIn(index, c) && InstanceUses(c, key, id) && id in index
    ensures InstanceMeans(index, c, x) && RefersUnder(index, x, key, id)
  {
    var name, f := TerraformIdentifier(c.id), Points(index[id], "id");
    if key == "vpc_security_group_ids" && id in c.securityGroupIds {
      x := Argument(Locator("aws_instance", name), TOP, key, f);
      assert NamesOne(index, c.securityGroupIds, f);
    } else if LivesIn(c, id) {
      x := Argument(Locator("aws_instance", name), TOP, key, f);
    } else {
      var nic :| nic in c.interfaces && !nic.primary && nic.subnetId == id;
      x := Argument(Locator("aws_network_interface", name + "_" + TerraformIdentifier(nic.id)), TOP, key, f);
      assert NicMeans(index, name, c, nic, x);
    }
  }

  lemma DatabaseRefers(index: Index, d: Database, key: string, id: string) returns (x: Argument)
    requires KnownTwice(index, d.subnetIds) && DatabaseUses(d, key, id) && id in index
    ensures DatabaseMeans(index, d, x) && RefersUnder(index, x, key, id)
  {
    var name, f := TerraformIdentifier(d.id), Points(index[id], "id");
    if key == "subnet_ids" && id in d.subnetIds {
      x := Argument(Locator("aws_db_subnet_group", name), TOP, key, f);
      assert NamesOne(index, d.subnetIds, f);
    } else {
      x := Argument(Locator("aws_db_instance", name), TOP, key, f);
      assert NamesOne(index, d.securityGroupIds, f);
    }
  }

  lemma BalancerRefers(index: Index, b: LoadBalancer, key: string, id: string) returns (x: Argument)
    requires SomeKnown(index, b.subnetIds) && BalancerUses(index, b, key, id) && id in index
    ensures BalancerMeans(index, b, x) && RefersUnder(index, x, key, id)
  {
    var name, f := TerraformIdentifier(b.id), Points(index[id], "id");
    if key == "subnets" && id in b.subnetIds {
      x := Argument(Locator("aws_lb", name), TOP, key, f);
      assert NamesOne(index, b.subnetIds, f);
    } else if key == "security_groups" && b.isApplication && id in b.securityGroupIds {
      x := Argument(Locator("aws_lb", name), TOP, key, f);
      assert NamesOne(index, b.securityGroupIds, f);
    } else {
      x := ListenerRefers(index, b, b.networkId.value, 0, key, id);
      assert SomeListenerMeans(index, b, b.networkId.value, b.listeners, x);
    }
  }

  lemma ListenerRefers(index: Index, b: LoadBalancer, networkId: string, k: nat, key: string, id: string)
    returns (x: Argument)
    requires networkId in index && id in index
    requires (key == "vpc_id" && id == networkId) || (key == "target_id" && id in b.targetComputeIds)
    ensures ListenerMeans(index, b, networkId, k, x) && RefersUnder(index, x, key, id)
  {
    var groupName, f := TerraformIdentifier(b.id) + "_tg_" + Decimal.Digits(k), Points(index[id], "id");
    if key == "vpc_id" && id == networkId {
      x := Argument(Locator("aws_lb_target_group", groupName), TOP, key, f);
    } else {
      x := Argument(Locator("aws_lb_target_group_attachment", groupName + "_" + TerraformIdentifier(id)), TOP, key, f);
      assert TargetMeans(index, groupName, id, x);
    }
  }

  lemma PlacedWhenEmitted(index: Index, c: ComputeInstance)
    requires Emitted(index, OfCompute(c))
    ensures IsPlacedIn(index, c)
  {
    PlaceMeans(index, c, PrimarySubnet(c).value);
  }

  lemma FieldReferred(infra: Infrastructure, index: Index, r: CloudResource, key: string, id: string) returns (x: Argument)
    requires Emitted(index, r) && UsesUnder(infra, index, r, key, id) && id in index
    ensures Means(infra, index, r, x) && RefersUnder(index, x, key, id)
  {
    match r {
      case OfSubnet(s) => x := Argument(Locator("aws_subnet", TerraformIdentifier(s.id)), TOP, key, Points(index[id], "id"));
      case OfTable(t) => x := TableRefers(index, t, key, id);
      case OfGateway(g) => x := GatewayRefers(infra, index, g, key, id);
      case OfGroup(g) => x := GroupRefers(index, g, key, id);
      case OfCompute(c) =>
        PlacedWhenEmitted(index, c);
        x := InstanceRefers(index, c, key, id);
      case OfDatabase(d) =>
        FoundTwice(index, d.subnetIds);
        x := DatabaseRefers(index, d, key, id);
      case OfBalancer(b) => x := BalancerRefers(index, b, key, id);
    }
  }

  // ---------- The exact condition ----------

  lemma MeantIsEmitted(infra: Infrastructure, index: Index, r: CloudResource, x: Argument)
    requires Means(infra, index, r, x)
    ensures Emitted(index, r)
  {
    BlocksSay(infra, index, r, x);
    EmittedIff(infra, index, r);
  }

  /** References are well typed exactly when what the fields of emitted resources name is of the kind
      that the argument made of the field takes. */
  lemma WellTypedIff(infra: Infrastructure)
    ensures WellTyped(ProjectOf(infra)) <==> RightKinds(infra)
  {
    var index := TheIndex(infra);
    if RightKinds(infra) {
      forall x | Says(ProjectOf(infra).main, x) ensures IsWellTyped(x) {
        MainSaysExactly(infra, x);
        var r :| IsPart(infra, r) && Means(infra, index, r, x);
        MeantTyped(infra, r, x);
      }
    }
    if WellTyped(ProjectOf(infra)) {
      forall r, key, id | IsPart(infra, r) && Emitted(index, r) ensures IsRight(infra, index, r, key, id) {
        if UsesUnder(infra, index, r, key, id) && id in index {
          UseTyped(infra, r, key, id);
        }
      }
    }
  }

  lemma MeantTyped(infra: Infrastructure, r: CloudResource, x: Argument)
    requires RightKinds(infra) && IsPart(infra, r) && Means(infra, TheIndex(infra), r, x)
    ensures IsWellTyped(x)
  {
    var index := TheIndex(infra);
    MeantIsEmitted(infra, index, r, x);
    ReferenceExplained(infra, index, r, x);
    if id :| id in index && UsesUnder(infra, index, r, x.key, id) && TerraformMeaning.Names(index, id, x.fact) {
      assert IsRight(infra, index, r, x.key, id);
    }
  }

  lemma UseTyped(infra: Infrastructure, r: CloudResource, key: string, id: string)
    requires WellTyped(ProjectOf(infra)) && IsPart(infra, r) && Emitted(TheIndex(infra), r)
    requires UsesUnder(infra, TheIndex(infra), r, key, id) && id in TheIndex(infra)
    ensures TakesId(key, TheIndex(infra)[id].kind)
  {
    var index := TheIndex(infra);
    var x := FieldReferred(infra, index, r, key, id);
    MeantIsTyped(infra, r, x);
    TakesById(key, index[id].kind);
  }

  lemma MeantIsTyped(infra: Infrastructure, r: CloudResource, x: Argument)
    requires WellTyped(ProjectOf(infra)) && IsPart(infra, r) && Means(infra, TheIndex(infra), r, x)
    ensures IsWellTyped(x)
  {
    MainSaysExactly(infra, x);
  }

  lemma TakesById(key: string, kind: string)
    ensures Takes(key, kind, "id") <==> TakesId(key, kind)
  {
  }

  // ---------- Distinct ids, and fields of the right kinds ----------

  predicate IdsDistinct(infra: Infrastructure) {
    forall j, k :: 0 <= j < k < |infra.ResourceIds()| ==> infra.ResourceIds()[j] != infra.ResourceIds()[k]
  }

  lemma SameId(infra: Infrastructure, r: CloudResource, s: CloudResource)
    requires IdsDistinct(infra) && r in Resources(infra) && s in Resources(infra) && r.Id() == s.Id()
    ensures r == s
  {
    var j := PlaceOf(infra, r);
    var k := PlaceOf(infra, s);
  }

  lemma PlaceOf(infra: Infrastructure, r: CloudResource) returns (j: nat)
    requires r in Resources(infra)
    ensures j < |Resources(infra)| && j < |infra.ResourceIds()|
    ensures Resources(infra)[j] == r && infra.ResourceIds()[j] == r.Id()
  {
    SpellsAll(infra);
    j :| 0 <= j < |Resources(infra)| && Resources(infra)[j] == r;
  }

  /** With distinct ids the index has the address of each resource. */
  lemma Indexed(infra: Infrastructure, r: CloudResource)
    requires IdsDistinct(infra) && IsPart(infra, r)
    ensures r.Id() in TheIndex(infra) && TheIndex(infra)[r.Id()] == r.At()
  {
    PartIsListed(infra, r);
    IndexMeans(Resources(infra), r.Id());
    var s :| s in Resources(infra) && s.Id() == r.Id() && s.At() == TheIndex(infra)[r.Id()];
    SameId(infra, r, s);
  }

  lemma KnownId(infra: Infrastructure, id: string)
    ensures id in infra.ResourceIds() <==> id in TheIndex(infra)
  {
    SpellsAll(infra);
    IndexMeans(Resources(infra), id);
    if id in infra.ResourceIds() {
      var k :| 0 <= k < |infra.ResourceIds()| && infra.ResourceIds()[k] == id;
      assert Resources(infra)[k].Id() == id;
    }
    if r :| r in Resources(infra) && r.Id() == id {
      var k :| 0 <= k < |Resources(infra)| && Resources(infra)[k] == r;
      assert infra.ResourceIds()[k] == id;
    }
  }

  /** The indexed types, field by field. */
  lemma TypesOf(infra: Infrastructure, id: string)
    requires IdsDistinct(infra) && id in TheIndex(infra)
    ensures id in infra.ResourceIds()
    ensures IsNetwork(infra, id) ==> TheIndex(infra)[id].kind == "aws_vpc"
    ensures IsSubnet(infra, id) ==> TheIndex(infra)[id].kind == "aws_subnet"
    ensures IsInstance(infra, id) ==> TheIndex(infra)[id].kind == "aws_instance"
    ensures IsGroup(infra, id) ==> TheIndex(infra)[id].kind == "aws_security_group"
  {
    KnownId(infra, id);
    if n :| n in infra.networks && n.id == id {
      Indexed(infra, OfNetwork(n));
    }
    if s :| s in infra.subnets && s.id == id {
      Indexed(infra, OfSubnet(s));
    }
    if c :| c in infra.compute && c.id == id {
      Indexed(infra, OfCompute(c));
    }
    if g :| g in infra.securityGroups && g.id == id {
      Indexed(infra, OfGroup(g));
    }
  }

  lemma TargetTaken(infra: Infrastructure, id: string, key: string)
    requires IdsDistinct(infra) && id in TheIndex(infra) && TargetOnly(infra, id)
    requires RoutesUnder(TheIndex(infra)[id].kind, key)
    ensures TakesId(key, TheIndex(infra)[id].kind)
  {
    TypesOf(infra, id);
    if g :| g in infra.gateways && g.id == id {
      Indexed(infra, OfGateway(g));
      GatewayArgument(g, key);
    } else {
      InstanceArgument(key);
    }
  }

  lemma GatewayArgument(g: Gateway, key: string)
    requires RoutesUnder(OfGateway(g).TerraformType(), key)
    ensures TakesId(key, OfGateway(g).TerraformType())
  {
    ArgumentOfRoute(OfGateway(g).TerraformType(), key);
  }

  lemma InstanceArgument(key: string)
    requires RoutesUnder("aws_instance", key)
    ensures TakesId(key, "aws_instance")
  {
    ArgumentOfRoute("aws_instance", key);
  }

  lemma TableTaken(infra: Infrastructure, t: RouteTable, key: string, id: string)
    requires IdsDistinct(infra) && FieldKinds.TableRight(infra, t)
    ensures IsRight(infra, TheIndex(infra), OfTable(t), key, id)
  {
    if TableUses(TheIndex(infra), t, key, id) && id in TheIndex(infra) {
      TypesOf(infra, id);
      if RoutesUnder(TheIndex(infra)[id].kind, key) && TargetOnly(infra, id) {
        TargetTaken(infra, id, key);
      }
    }
  }

  lemma GatewayTaken(infra: Infrastructure, g: Gateway, key: string, id: string)
    requires IdsDistinct(infra) && FieldKinds.GatewayRight(infra, g)
    ensures IsRight(infra, TheIndex(infra), OfGateway(g), key, id)
  {
    if GatewayUses(infra, TheIndex(infra), g, key, id) && id in TheIndex(infra) {
      if n :| g.kind.Transit? && n in g.peerNetworkIds && AttachmentUses(infra, TheIndex(infra), n, key, id) {
        AttachmentTaken(infra, g, n, key, id);
      } else {
        SingleTaken(infra, TheIndex(infra), g, key, id);
      }
    }
  }

  lemma SingleTaken(infra: Infrastructure, index: Index, g: Gateway, key: string, id: string)
    requires IdsDistinct(infra) && index == TheIndex(infra) && id in index && FieldKinds.GatewayRight(infra, g)
    requires GatewayUses(infra, index, g, key, id) && !g.kind.Transit?
    ensures TakesId(key, index[id].kind)
  {
    TypesOf(infra, id);
    assert g.kind.Peering? ==> id in g.peerNetworkIds;
  }

  lemma AttachmentTaken(infra: Infrastructure, g: Gateway, n: string, key: string, id: string)
    requires IdsDistinct(infra) && FieldKinds.GatewayRight(infra, g) && n in g.peerNetworkIds && id in TheIndex(infra)
    requires AttachmentUses(infra, TheIndex(infra), n, key, id)
    ensures TakesId(key, TheIndex(infra)[id].kind)
  {
    TypesOf(infra, id);
    if s :| s in infra.subnets && s.networkId == n && s.id == id && key == "subnet_ids" {
      assert IsSubnet(infra, id);
    }
  }

  lemma GroupTaken(infra: Infrastructure, g: SecurityGroup, key: string, id: string)
    requires IdsDistinct(infra) && FieldKinds.GroupRight(infra, g)
    ensures IsRight(infra, TheIndex(infra), OfGroup(g), key, id)
  {
    if GroupUses(g, key, id) && id in TheIndex(infra) {
      TypesOf(infra, id);
      if r :| r in g.rules && r.sourceSecurityGroupId == Some(id) {
        assert FieldKinds.RuleRight(infra, r);
      }
    }
  }

  lemma InstanceTaken(infra: Infrastructure, c: ComputeInstance, key: string, id: string)
    requires IdsDistinct(infra) && FieldKinds.InstanceRight(infra, c)
    ensures IsRight(infra, TheIndex(infra), OfCompute(c), key, id)
  {
    if InstanceUses(c, key, id) && id in TheIndex(infra) {
      TypesOf(infra, id);
    }
  }

  lemma OthersTaken(infra: Infrastructure, r: CloudResource, key: string, id: string)
    requires IdsDistinct(infra) && FieldsRight(infra) && IsPart(infra, r)
    requires r.OfNetwork? || r.OfSubnet? || r.OfDatabase? || r.OfBalancer?
    ensures IsRight(infra, TheIndex(infra), r, key, id)
  {
    if UsesUnder(infra, TheIndex(infra), r, key, id) && id in TheIndex(infra) {
      TypesOf(infra, id);
    }
  }

  lemma FieldTaken(infra: Infrastructure, r: CloudResource, key: string, id: string)
    requires IdsDistinct(infra) && FieldsRight(infra) && IsPart(infra, r)
    ensures IsRight(infra, TheIndex(infra), r, key, id)
  {
    match r
    case OfTable(t) => TableTaken(infra, t, key, id);
    case OfGateway(g) => GatewayTaken(infra, g, key, id);
    case OfGroup(g) => GroupTaken(infra, g, key, id);
    case OfCompute(c) => InstanceTaken(infra, c, key, id);
    case _ => OthersTaken(infra, r, key, id);
  }

  /** With distinct ids, and fields that name resources of the right kind or none at all, every
      argument in main.tf refers to what it takes. */
  lemma WellTypedWhenFieldsRight(infra: Infrastructure)
    requires IdsDistinct(infra) && FieldsRight(infra)
    ensures WellTyped(ProjectOf(infra))
  {
    WellTypedIff(infra);
    forall r, key, id | IsPart(infra, r) && Emitted(TheIndex(infra), r) ensures IsRight(infra, TheIndex(infra), r, key, id) {
      FieldTaken(infra, r, key, id);
    }
  }

  lemma GroupTypeOnly(r: CloudResource)
    requires TakesId("security_groups", r.TerraformType())
    ensures r.OfGroup?
  {
  }

  /** A rule of an emitted group must name a group, or nothing. */
  lemma PeerMustBeGroup(infra: Infrastructure, g: SecurityGroup, r: SecurityRule)
    requires WellTyped(ProjectOf(infra)) && g in infra.securityGroups && r in g.rules && g.networkId in TheIndex(infra)
    requires r.sourceSecurityGroupId != Some("")
    ensures FieldKinds.RuleRight(infra, r)
  {
    if r.sourceSecurityGroupId.Some? && r.sourceSecurityGroupId.value in infra.ResourceIds() {
      var id := r.sourceSecurityGroupId.value;
      KnownId(infra, id);
      UseTyped(infra, OfGroup(g), "security_groups", id);
      IndexMeans(Resources(infra), id);
      var s :| s in Resources(infra) && s.Id() == id && s.At() == TheIndex(infra)[id];
      GroupTypeOnly(s);
      ResourceIsPart(infra, s);
    }
  }

  // ---------- Associations ----------

  /** One block ties a subnet to a table, each under its own argument. */
  predicate Ties(b: Block, subnet: Locator, table: Locator) {
    && b.kind == "aws_route_table_association"
    && (forall a <- b.attributes :: a.key == "subnet_id" ==> a.value == Reference(subnet, "id"))
    && (forall a <- b.attributes :: a.key == "route_table_id" ==> a.value == Reference(table, "id"))
    && (exists a <- b.attributes :: a.key == "subnet_id") && (exists a <- b.attributes :: a.key == "route_table_id")
  }

  lemma TiesWhen(b: Block, subnet: Locator, table: Locator)
    requires b.kind == "aws_route_table_association" && |b.attributes| == 2
    requires b.attributes[0] == Attribute("subnet_id", Reference(subnet, "id"))
    requires b.attributes[1] == Attribute("route_table_id", Reference(table, "id"))
    ensures Ties(b, subnet, table)
  {
    assert "subnet_id"[0] != "route_table_id"[0];
    assert b.attributes[0] in b.attributes && b.attributes[1] in b.attributes;
  }

  /** For each table of a known network and each of its associated subnets that is known there is an
      association block with the subnet under `subnet_id` and the table under `route_table_id`. */
  lemma AssociationTies(infra: Infrastructure, table: RouteTable, id: string) returns (b: Block)
    requires table in infra.routeTables && table.networkId in TheIndex(infra)
    requires id in table.associatedSubnetIds && id in TheIndex(infra)
    ensures b in ProjectOf(infra).main
    ensures Ties(b, TheIndex(infra)[id], OfTable(table).At())
  {
    var index, name := TheIndex(infra), TerraformIdentifier(table.id);
    b := Association(index, name, id).value;
    assert AssociationMaker(index, name)(id) == Some(b);
    Lists.FilterMapMember(table.associatedSubnetIds, AssociationMaker(index, name), b);
    assert b in TableBlocks(index, table);
    PartIsListed(infra, OfTable(table));
    SameResources(infra, OfTable(table));
    InMainWhen(infra, index, EmissionOrder(infra), OfTable(table), b);
    TiesWhen(b, index[id], OfTable(table).At());
  }
}
