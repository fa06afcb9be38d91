/**
 The mappers at work: one context, updated by every mapper, and the generator that indexes the
 addresses and then emits the resources kind by kind.
 */
module TerraformMapping {
  import opened CloudModel
  import opened Decimal
  import opened Lists
  import opened Terraform
  import opened Wrappers

  datatype MappingWarning = MappingWarning(code: string, subject: string)

  // ---------- What is reported ----------

  predicate Known(index: Index, id: Option<string>) {
    id.Some? && id.value != "" && id.value in index
  }

  function RouteNote(index: Index, tableId: string): Route -> Option<MappingWarning> {
    (r: Route) => if r.targetRef in index then None else Some(MappingWarning("unresolved_route_target", tableId))
  }

  function AssociationNote(index: Index, tableId: string): string -> Option<MappingWarning> {
    (id: string) => if id in index then None else Some(MappingWarning("unresolved_subnet_association", tableId))
  }

  predicate CanAttach(infra: Infrastructure, index: Index, networkId: string) {
    networkId in index && exists s <- infra.subnets :: s.networkId == networkId && s.id in index
  }

  function AttachmentNote(infra: Infrastructure, index: Index, gatewayId: string): string -> Option<MappingWarning> {
    (id: string) => if CanAttach(infra, index, id) then None
                    else Some(MappingWarning("transit_attachment_incomplete", gatewayId))
  }

  function RuleNote(index: Index, groupId: string): SecurityRule -> Option<MappingWarning> {
    (r: SecurityRule) =>
      if r.sourceSecurityGroupId == None || r.sourceSecurityGroupId == Some("") then
        if r.cidrBlocks == [] then Some(MappingWarning("rule_without_source", groupId)) else None
      else if r.sourceSecurityGroupId.value in index then None
      else Some(MappingWarning("unresolved_security_group_reference", groupId))
  }

  function NicNote(index: Index, c: ComputeInstance): NetworkInterface -> Option<MappingWarning> {
    (nic: NetworkInterface) =>
      if nic.primary || Some(nic.subnetId) == PrimarySubnet(c) || nic.subnetId in index then None
      else Some(MappingWarning("unresolved_interface_subnet", c.id))
  }

  function GatewayNotes(infra: Infrastructure, index: Index, g: Gateway): seq<MappingWarning> {
    match g.kind
    case Internet => if Known(index, g.networkId) then [] else [MappingWarning("unresolved_network_reference", g.id)]
    case Nat => if Known(index, g.subnetId) then [] else [MappingWarning("nat_gateway_without_public_subnet", g.id)]
    case Peering =>
      if |g.peerNetworkIds| != 2 then [MappingWarning("peering_needs_exactly_two_networks", g.id)]
      else if g.peerNetworkIds[0] in index && g.peerNetworkIds[1] in index then []
      else [MappingWarning("unresolved_peer_network", g.id)]
    case Transit => FilterMap(g.peerNetworkIds, AttachmentNote(infra, index, g.id))
    case _ => [MappingWarning("unsupported_gateway_type", g.id)]
  }

  function TableNotes(index: Index, t: RouteTable): seq<MappingWarning> {
    if t.networkId !in index then [MappingWarning("unresolved_network_reference", t.id)]
    else FilterMap(t.routes, RouteNote(index, t.id)) + FilterMap(t.associatedSubnetIds, AssociationNote(index, t.id))
  }

  /** The warnings of one resource, in the order they are given. */
  function Notes(infra: Infrastructure, index: Index, r: CloudResource): seq<MappingWarning> {
    match r
    case OfNetwork(_) => []
    case OfSubnet(s) => if s.networkId in index then [] else [MappingWarning("unresolved_network_reference", s.id)]
    case OfTable(t) => TableNotes(index, t)
    case OfGateway(g) => GatewayNotes(infra, index, g)
    case OfGroup(g) =>
      if g.networkId !in index then [MappingWarning("unresolved_network_reference", g.id)]
      else FilterMap(g.rules, RuleNote(index, g.id))
    case OfCompute(c) =>
      if !Known(index, PrimarySubnet(c)) then [MappingWarning("compute_without_subnet", c.id)]
      else FilterMap(c.interfaces, NicNote(index, c))
    case OfDatabase(d) =>
      if Blocks(infra, index, r) == [] then [MappingWarning("db_subnet_group_needs_two_subnets", d.id)] else []
    case OfBalancer(b) => BalancerNotes(index, b)
  }

  function BalancerNotes(index: Index, b: LoadBalancer): seq<MappingWarning> {
    if forall id <- b.subnetIds :: id !in index then [MappingWarning("load_balancer_without_subnets", b.id)]
    else if b.listeners > 0 && !Known(index, b.networkId) then [MappingWarning("listener_without_network", b.id)]
    else []
  }

  function NotesOf(infra: Infrastructure, index: Index, resources: seq<CloudResource>): seq<MappingWarning> {
    if resources == [] then []
    else NotesOf(infra, index, resources[..|resources| - 1]) + Notes(infra, index, resources[|resources| - 1])
  }

  lemma AttachedWhen(infra: Infrastructure, index: Index, name: string, networkId: string)
    ensures Attachment(infra, index, name, networkId).Some? <==> CanAttach(infra, index, networkId)
  {
    var own, ids := SubnetsOf(infra.subnets, networkId), SubnetIdsOf(infra, networkId);
    FilterMapEmpty(ids, Finder(index));
    if id :| id in ids && id in index {
      var k :| 0 <= k < |ids| && ids[k] == id;
      assert own[k] in infra.subnets;
    }
    if s :| s in infra.subnets && s.networkId == networkId && s.id in index {
      var k :| 0 <= k < |own| && own[k] == s;
      assert ids[k] == s.id;
    }
  }

  lemma AttachmentStep(infra: Infrastructure, index: Index, gatewayId: string, name: string, ids: seq<string>, k: nat)
    requires k < |ids|
    ensures FilterMap(ids[..k + 1], AttachmentNote(infra, index, gatewayId))
            == FilterMap(ids[..k], AttachmentNote(infra, index, gatewayId))
               + if Attachment(infra, index, name, ids[k]).Some? then []
                 else [MappingWarning("transit_attachment_incomplete", gatewayId)]
    ensures FilterMap(ids[..k + 1], AttachmentMaker(infra, index, name))
            == FilterMap(ids[..k], AttachmentMaker(infra, index, name)) + Listed(Attachment(infra, index, name, ids[k]))
  {
    FilterMapStep(ids, k, AttachmentNote(infra, index, gatewayId));
    FilterMapStep(ids, k, AttachmentMaker(infra, index, name));
    AttachedWhen(infra, index, name, ids[k]);
  }

  lemma RuleNoteStep(index: Index, g: SecurityGroup, k: nat)
    requires k < |g.rules|
    ensures var peer := g.rules[k].sourceSecurityGroupId;
            var code := if peer.Some? && peer.value != "" then "unresolved_security_group_reference" else "rule_without_source";
            FilterMap(g.rules[..k + 1], RuleNote(index, g.id))
            == FilterMap(g.rules[..k], RuleNote(index, g.id))
               + if RuleBlock(index, g.rules[k]).Some? then [] else [MappingWarning(code, g.id)]
  {
    FilterMapStep(g.rules, k, RuleNote(index, g.id));
  }

  class MappingContext {
    const infra: Infrastructure
    var addresses: Index
    var warnings: seq<MappingWarning>
    var requiredVariables: set<string>
    var outputs: map<string, Value>

    constructor (infra: Infrastructure)
      ensures this.infra == infra && addresses == map[] && warnings == [] && requiredVariables == {} && outputs == map[]
    {
      this.infra := infra;
      addresses, warnings, requiredVariables, outputs := map[], [], {}, map[];
    }

    /** Done in one pass before emission, so that a block can refer to one not emitted yet. */
    method IndexAddresses()
      modifies `addresses
      ensures addresses == IndexOf(Resources(infra))
    {
      var resources := Resources(infra);
      addresses := map[];
      for k := 0 to |resources|
        invariant addresses == IndexOf(resources[..k])
      {
        IndexStep(resources, k);
        addresses := addresses[resources[k].Id() := resources[k].At()];
      }
      assert resources[..|resources|] == resources;
    }

    method Warn(code: string, subject: string)
      modifies `warnings
      ensures warnings == old(warnings) + [MappingWarning(code, subject)]
    {
      warnings := warnings + [MappingWarning(code, subject)];
    }

    /** What mapping a resource does: its blocks come back, its outputs and variables are added,
        and whatever of it comes to nothing is reported. */
    twostate predicate Mapped(r: CloudResource, blocks: seq<Block>)
      reads this
    {
      && addresses == old(addresses)
      && blocks == Blocks(infra, addresses, r)
      && outputs == old(outputs) + Outputs(infra, addresses, r)
      && requiredVariables == old(requiredVariables) + Variables(infra, addresses, r)
      && warnings == old(warnings) + Notes(infra, addresses, r)
    }

    // ---------- Networking ----------

    method MapNetwork(n: VirtualNetwork) returns (blocks: seq<Block>)
      modifies this
      ensures Mapped(OfNetwork(n), blocks)
    {
      var name := TerraformIdentifier(n.id);
      var secondary: seq<Block> := [];
      for k := 0 to |n.secondaryCidrs|
        invariant secondary == Secondary(name, n.secondaryCidrs[..k])
      {
        assert n.secondaryCidrs[..k + 1][..k] == n.secondaryCidrs[..k];
        secondary := secondary + [Resource("aws_vpc_ipv4_cidr_block_association", name + "_secondary_" + Digits(k),
                                           [Attribute("vpc_id", ById(Locator("aws_vpc", name))),
                                            Attribute("cidr_block", Range(n.secondaryCidrs[k]))])];
      }
      assert n.secondaryCidrs[..|n.secondaryCidrs|] == n.secondaryCidrs;
      blocks := [Resource("aws_vpc", name, [Attribute("cidr_block", Range(n.cidr))])] + secondary;
      outputs := outputs[name + "_id" := ById(Locator("aws_vpc", name))];
    }

    method MapSubnet(s: Subnet) returns (blocks: seq<Block>)
      modifies this
      ensures Mapped(OfSubnet(s), blocks)
    {
      blocks := SubnetBlocks(infra, addresses, s);
      if blocks == [] {
        Warn("unresolved_network_reference", s.id);
      }
    }

    method MakeRoutes(t: RouteTable) returns (routes: seq<Nested>)
      modifies `warnings
      ensures routes == FilterMap(t.routes, RouteMaker(addresses))
      ensures warnings == old(warnings) + FilterMap(t.routes, RouteNote(addresses, t.id))
    {
      routes := [];
      for k := 0 to |t.routes|
        invariant routes == FilterMap(t.routes[..k], RouteMaker(addresses))
        invariant warnings == old(warnings) + FilterMap(t.routes[..k], RouteNote(addresses, t.id))
      {
        FilterMapStep(t.routes, k, RouteMaker(addresses));
        FilterMapStep(t.routes, k, RouteNote(addresses, t.id));
        var target := Find(addresses, t.routes[k].targetRef);
        if target.None? {
          Warn("unresolved_route_target", t.id);
        } else {
          routes := routes + [Nested("route", [Attribute("cidr_block", Range(t.routes[k].destination)),
                                               Attribute(RouteTargetArgument(target.value.kind), ById(target.value))])];
        }
      }
      assert t.routes[..|t.routes|] == t.routes;
    }

    method Associate(t: RouteTable, name: string) returns (blocks: seq<Block>)
      modifies `warnings
      ensures blocks == FilterMap(t.associatedSubnetIds, AssociationMaker(addresses, name))
      ensures warnings == old(warnings) + FilterMap(t.associatedSubnetIds, AssociationNote(addresses, t.id))
    {
      blocks := [];
      var ids := t.associatedSubnetIds;
      for k := 0 to |ids|
        invariant blocks == FilterMap(ids[..k], AssociationMaker(addresses, name))
        invariant warnings == old(warnings) + FilterMap(ids[..k], AssociationNote(addresses, t.id))
      {
        FilterMapStep(ids, k, AssociationMaker(addresses, name));
        FilterMapStep(ids, k, AssociationNote(addresses, t.id));
        var made := Association(addresses, name, ids[k]);
        if made.None? {
          Warn("unresolved_subnet_association", t.id);
        } else {
          blocks := blocks + [made.value];
        }
      }
      assert ids[..|ids|] == ids;
    }

    method MakeTable(t: RouteTable) returns (blocks: seq<Block>)
      modifies `warnings
      ensures blocks == TableBlocks(addresses, t)
      ensures warnings == old(warnings) + TableNotes(addresses, t)
    {
      var name, vpc := TerraformIdentifier(t.id), Find(addresses, t.networkId);
      if vpc.None? {
        Warn("unresolved_network_reference", t.id);
        return [];
      }
      var routes := MakeRoutes(t);
      var associations := Associate(t, name);
      Lists.Associate(old(warnings), FilterMap(t.routes, RouteNote(addresses, t.id)),
                      FilterMap(t.associatedSubnetIds, AssociationNote(addresses, t.id)));
      blocks := [Block("aws_route_table", name, [Attribute("vpc_id", ById(vpc.value))], routes)] + associations;
    }

    method MapRouteTable(t: RouteTable) returns (blocks: seq<Block>)
      modifies this
      ensures Mapped(OfTable(t), blocks)
    {
      blocks := MakeTable(t);
    }

    method Attach(g: Gateway, name: string) returns (blocks: seq<Block>)
      modifies `warnings
      ensures blocks == FilterMap(g.peerNetworkIds, AttachmentMaker(infra, addresses, name))
      ensures warnings == old(warnings) + FilterMap(g.peerNetworkIds, AttachmentNote(infra, addresses, g.id))
    {
      blocks := [];
      var ids := g.peerNetworkIds;
      for k := 0 to |ids|
        invariant blocks == FilterMap(ids[..k], AttachmentMaker(infra, addresses, name))
        invariant warnings == old(warnings) + FilterMap(ids[..k], AttachmentNote(infra, addresses, g.id))
      {
        AttachmentStep(infra, addresses, g.id, name, ids, k);
        ghost var front := FilterMap(ids[..k], AttachmentNote(infra, addresses, g.id));
        Lists.Associate(old(warnings), front, [MappingWarning("transit_attachment_incomplete", g.id)]);
        var made := Attachment(infra, addresses, name, ids[k]);
        if made.None? {
          Warn("transit_attachment_incomplete", g.id);
        } else {
          blocks := blocks + [made.value];
        }
      }
      assert ids[..|ids|] == ids;
    }

    method MapGateway(g: Gateway) returns (blocks: seq<Block>)
      modifies this
      ensures Mapped(OfGateway(g), blocks)
    {
      var name := TerraformIdentifier(g.id);
      if g.kind.Transit? {
        var attachments := Attach(g, name);
        return [Resource("aws_ec2_transit_gateway", name, [Attribute("description", Literal)])] + attachments;
      }
      blocks := GatewayBlocks(infra, addresses, g);
      if blocks == [] {
        Warn(match g.kind
             case Internet => "unresolved_network_reference"
             case Nat => "nat_gateway_without_public_subnet"
             case Peering => if |g.peerNetworkIds| != 2 then "peering_needs_exactly_two_networks" else "unresolved_peer_network"
             case _ => "unsupported_gateway_type",
             g.id);
      }
    }

    // ---------- Security ----------

    method MakeRules(g: SecurityGroup) returns (rules: seq<Nested>)
      modifies `warnings
      ensures rules == FilterMap(g.rules, RuleMaker(addresses))
      ensures warnings == old(warnings) + FilterMap(g.rules, RuleNote(addresses, g.id))
    {
      rules := [];
      for k := 0 to |g.rules|
        invariant rules == FilterMap(g.rules[..k], RuleMaker(addresses))
        invariant warnings == old(warnings) + FilterMap(g.rules[..k], RuleNote(addresses, g.id))
      {
        FilterMapStep(g.rules, k, RuleMaker(addresses));
        RuleNoteStep(addresses, g, k);
        ghost var front := FilterMap(g.rules[..k], RuleNote(addresses, g.id));
        var made, peer := RuleBlock(addresses, g.rules[k]), g.rules[k].sourceSecurityGroupId;
        if made.None? {
          Warn(if peer.Some? && peer.value != "" then "unresolved_security_group_reference" else "rule_without_source",
               g.id);
          Lists.Associate(old(warnings), front, [warnings[|warnings| - 1]]);
        } else {
          rules := rules + [made.value];
        }
      }
      assert g.rules[..|g.rules|] == g.rules;
    }

    method MapSecurityGroup(g: SecurityGroup) returns (blocks: seq<Block>)
      modifies this
      ensures Mapped(OfGroup(g), blocks)
    {
      var vpc := Find(addresses, g.networkId);
      if vpc.None? {
        Warn("unresolved_network_reference", g.id);
        return [];
      }
      var rules := MakeRules(g);
      blocks := [Block("aws_security_group", TerraformIdentifier(g.id),
                       [Attribute("name", Literal), Attribute("vpc_id", ById(vpc.value))], rules)];
    }

    // ---------- Compute and data ----------

    method MakeNics(c: ComputeInstance, name: string) returns (blocks: seq<Block>)
      modifies `warnings
      ensures blocks == AllNicBlocks(addresses, name, PrimarySubnet(c), c.interfaces)
      ensures warnings == old(warnings) + FilterMap(c.interfaces, NicNote(addresses, c))
    {
      blocks := [];
      var nics := c.interfaces;
      for k := 0 to |nics|
        invariant blocks == AllNicBlocks(addresses, name, PrimarySubnet(c), nics[..k])
        invariant warnings == old(warnings) + FilterMap(nics[..k], NicNote(addresses, c))
      {
        FilterMapStep(nics, k, NicNote(addresses, c));
        assert nics[..k + 1][..k] == nics[..k];
        var made := NicBlocks(addresses, name, PrimarySubnet(c), nics[k]);
        if !nics[k].primary && Some(nics[k].subnetId) != PrimarySubnet(c) && made == [] {
          Warn("unresolved_interface_subnet", c.id);
        }
        blocks := blocks + made;
      }
      assert nics[..|nics|] == nics;
    }

    method Publish(c: ComputeInstance, name: string)
      requires name == TerraformIdentifier(c.id)
      modifies `outputs
      ensures outputs == old(outputs) + InstanceOutputs(c)
    {
      outputs := outputs[name + "_private_ip" := Reference(Locator("aws_instance", name), "private_ip")];
      if c.assignPublicIp {
        outputs := outputs[name + "_public_ip" := Reference(Locator("aws_instance", name), "public_ip")];
      }
    }

    method MakeInstance(c: ComputeInstance) returns (blocks: seq<Block>)
      modifies `warnings
      ensures blocks == InstanceBlocks(addresses, c)
      ensures warnings == old(warnings) + Notes(infra, addresses, OfCompute(c))
    {
      var name, subnet := TerraformIdentifier(c.id), FindGiven(addresses, PrimarySubnet(c));
      if subnet.None? {
        Warn("compute_without_subnet", c.id);
        return [];
      }
      var nics := MakeNics(c, name);
      blocks := [Resource("aws_instance", name, InstanceAttributes(addresses, c, subnet.value))] + nics;
    }

    method MapCompute(c: ComputeInstance) returns (blocks: seq<Block>)
      modifies this
      ensures Mapped(OfCompute(c), blocks)
    {
      blocks := MakeInstance(c);
      if blocks == [] {
        return;
      }
      if !HasKey(c) {
        requiredVariables := requiredVariables + {"ssh_key_name"};
      }
      Publish(c, TerraformIdentifier(c.id));
    }

    method MapDatabase(d: Database) returns (blocks: seq<Block>)
      modifies this
      ensures Mapped(OfDatabase(d), blocks)
    {
      var name := TerraformIdentifier(d.id);
      blocks := DatabaseBlocks(addresses, d);
      if blocks == [] {
        Warn("db_subnet_group_needs_two_subnets", d.id);
        return;
      }
      requiredVariables := requiredVariables + {name + "_username", name + "_password"};
      outputs := outputs[name + "_endpoint" := Reference(Locator("aws_db_instance", name), "endpoint")];
    }

    method MakeTargets(b: LoadBalancer, groupName: string) returns (blocks: seq<Block>)
      ensures blocks == FilterMap(b.targetComputeIds, TargetMaker(addresses, groupName))
    {
      blocks := [];
      var ids := b.targetComputeIds;
      for k := 0 to |ids|
        invariant blocks == FilterMap(ids[..k], TargetMaker(addresses, groupName))
      {
        FilterMapStep(ids, k, TargetMaker(addresses, groupName));
        var made := TargetBlock(addresses, groupName, ids[k]);
        if made.Some? {
          blocks := blocks + [made.value];
        }
      }
      assert ids[..|ids|] == ids;
    }

    method MakeListeners(b: LoadBalancer, network: Option<Locator>) returns (blocks: seq<Block>)
      modifies `warnings
      ensures warnings == old(warnings)
                          + if network.None? && b.listeners > 0 then [MappingWarning("listener_without_network", b.id)] else []
      ensures blocks == AllListenerBlocks(addresses, b, network, if network.None? then 0 else b.listeners)
    {
      blocks := [];
      if network.None? {
        if b.listeners > 0 {
          Warn("listener_without_network", b.id);
        }
        return;
      }
      for k := 0 to b.listeners
        invariant warnings == old(warnings)
        invariant blocks == AllListenerBlocks(addresses, b, network, k)
      {
        var made := MakeListener(b, network.value, k);
        blocks := blocks + made;
      }
    }

    method MakeListener(b: LoadBalancer, network: Locator, k: nat) returns (blocks: seq<Block>)
      ensures blocks == ListenerBlocks(addresses, b, network, k)
    {
      var name := TerraformIdentifier(b.id);
      var groupName := GroupName(name, k);
      var targets := MakeTargets(b, groupName);
      blocks := [Resource("aws_lb_target_group", groupName, [Attribute("port", Literal), Attribute("vpc_id", ById(network))]),
                 Block("aws_lb_listener", name + "_listener_" + Digits(k),
                       [Attribute("load_balancer_arn", Reference(Locator("aws_lb", name), "arn"))],
                       [Nested("default_action", [Attribute("target_group_arn",
                                                            Reference(Locator("aws_lb_target_group", groupName), "arn"))])])]
                + targets;
    }

    method MakeBalancer(b: LoadBalancer) returns (blocks: seq<Block>)
      modifies `warnings
      ensures blocks == BalancerBlocks(addresses, b)
      ensures warnings == old(warnings) + BalancerNotes(addresses, b)
    {
      FilterMapEmpty(b.subnetIds, Finder(addresses));
      if FilterMap(b.subnetIds, Finder(addresses)) == [] {
        Warn("load_balancer_without_subnets", b.id);
        return [];
      }
      var listeners := MakeListeners(b, FindGiven(addresses, b.networkId));
      blocks := [Resource("aws_lb", TerraformIdentifier(b.id), BalancerAttributes(addresses, b))] + listeners;
    }

    method MapLoadBalancer(b: LoadBalancer) returns (blocks: seq<Block>)
      modifies this
      ensures Mapped(OfBalancer(b), blocks)
    {
      blocks := MakeBalancer(b);
      if blocks != [] {
        var name := TerraformIdentifier(b.id);
        outputs := outputs[name + "_dns_name" := Reference(Locator("aws_lb", name), "dns_name")];
      }
    }

    // ---------- The registry ----------

    method Map(r: CloudResource) returns (blocks: seq<Block>)
      modifies this
      ensures Mapped(r, blocks)
    {
      match r {
        case OfNetwork(n) => blocks := MapNetwork(n);
        case OfSubnet(s) => blocks := MapSubnet(s);
        case OfTable(t) => blocks := MapRouteTable(t);
        case OfGateway(g) => blocks := MapGateway(g);
        case OfGroup(g) => blocks := MapSecurityGroup(g);
        case OfCompute(c) => blocks := MapCompute(c);
        case OfDatabase(d) => blocks := MapDatabase(d);
        case OfBalancer(b) => blocks := MapLoadBalancer(b);
      }
    }
  }

  // ---------- The generator ----------

  function MainOf(infra: Infrastructure, index: Index, resources: seq<CloudResource>): seq<Block> {
    if resources == [] then []
    else
      MainOf(infra, index, resources[..|resources| - 1]) + Blocks(infra, index, resources[|resources| - 1])
  }

  function OutputsOf(infra: Infrastructure, index: Index, resources: seq<CloudResource>): map<string, Value> {
    if resources == [] then map[]
    else
      OutputsOf(infra, index, resources[..|resources| - 1]) + Outputs(infra, index, resources[|resources| - 1])
  }

  function VariablesOf(infra: Infrastructure, index: Index, resources: seq<CloudResource>): set<string> {
    if resources == [] then {}
    else
      VariablesOf(infra, index, resources[..|resources| - 1]) + Variables(infra, index, resources[|resources| - 1])
  }

  /** What main.tf, outputs.tf and variables.tf declare. */
  datatype Project = Project(main: seq<Block>, outputs: map<string, Value>, variables: set<string>)

  function ProjectOf(infra: Infrastructure): Project {
    var index, order := IndexOf(Resources(infra)), EmissionOrder(infra);
    Project(MainOf(infra, index, order), OutputsOf(infra, index, order), {"aws_region"} + VariablesOf(infra, index, order))
  }

  predicate IsReported(warnings: seq<MappingWarning>, r: CloudResource) {
    exists w <- warnings :: w.subject == r.Id()
  }

  lemma DroppedNoted(infra: Infrastructure, index: Index, r: CloudResource)
    requires Blocks(infra, index, r) == []
    ensures IsReported(Notes(infra, index, r), r)
  {
    if r.OfBalancer? {
      FilterMapEmpty(r.balancer.subnetIds, Finder(index));
    } else if r.OfGateway? {
      DroppedGatewayNoted(infra, index, r.gateway);
    }
    FirstReported(Notes(infra, index, r), r);
  }

  lemma DroppedGatewayNoted(infra: Infrastructure, index: Index, g: Gateway)
    requires GatewayBlocks(infra, index, g) == []
    ensures GatewayNotes(infra, index, g) != [] && GatewayNotes(infra, index, g)[0].subject == g.id
  {
  }

  lemma FirstReported(warnings: seq<MappingWarning>, r: CloudResource)
    requires warnings != [] && warnings[0].subject == r.Id()
    ensures IsReported(warnings, r)
  {
    assert warnings[0] in warnings;
  }

  lemma {:induction false} NotedAll(infra: Infrastructure, index: Index, resources: seq<CloudResource>, w: MappingWarning)
    ensures w in NotesOf(infra, index, resources) <==> exists r <- resources :: w in Notes(infra, index, r)
  {
    if resources != [] {
      var front, last := resources[..|resources| - 1], resources[|resources| - 1];
      NotedAll(infra, index, front, w);
      assert forall r <- resources :: r in front || r == last;
      assert last in resources && forall r <- front :: r in resources;
    }
  }

  lemma ReportedEach(infra: Infrastructure, index: Index, resources: seq<CloudResource>, r: CloudResource)
    requires r in resources && Blocks(infra, index, r) == []
    ensures IsReported(NotesOf(infra, index, resources), r)
  {
    DroppedNoted(infra, index, r);
    var w :| w in Notes(infra, index, r) && w.subject == r.Id();
    NotedAll(infra, index, resources, w);
  }

  /** Nothing when no resource could be mapped. Whatever comes to nothing is reported, in order, and
      so every resource that does. */
  method Generate(infra: Infrastructure) returns (project: Option<Project>, warnings: seq<MappingWarning>)
    ensures project == if ProjectOf(infra).main == [] then None else Some(ProjectOf(infra))
    ensures warnings == NotesOf(infra, IndexOf(Resources(infra)), EmissionOrder(infra))
    ensures forall r <- EmissionOrder(infra) ::
              Blocks(infra, IndexOf(Resources(infra)), r) == [] ==> IsReported(warnings, r)
  {
    var context := new MappingContext(infra);
    context.IndexAddresses();
    var main := EmitAll(context, EmissionOrder(infra));
    warnings := context.warnings;
    forall r | r in EmissionOrder(infra) && Blocks(infra, context.addresses, r) == [] ensures IsReported(warnings, r) {
      ReportedEach(infra, context.addresses, EmissionOrder(infra), r);
    }
    if main == [] {
      return None, warnings;
    }
    project := Some(Project(main, context.outputs, {"aws_region"} + context.requiredVariables));
  }

  method EmitAll(context: MappingContext, resources: seq<CloudResource>) returns (main: seq<Block>)
    requires context.warnings == [] && context.outputs == map[] && context.requiredVariables == {}
    modifies context
    ensures context.addresses == old(context.addresses)
    ensures main == MainOf(context.infra, context.addresses, resources)
    ensures context.outputs == OutputsOf(context.infra, context.addresses, resources)
    ensures context.requiredVariables == VariablesOf(context.infra, context.addresses, resources)
    ensures context.warnings == NotesOf(context.infra, context.addresses, resources)
  {
    main := [];
    ghost var infra, index := context.infra, context.addresses;
    for k := 0 to |resources|
      invariant context.addresses == index
      invariant main == MainOf(infra, index, resources[..k])
      invariant context.outputs == OutputsOf(infra, index, resources[..k])
      invariant context.requiredVariables == VariablesOf(infra, index, resources[..k])
      invariant context.warnings == NotesOf(infra, index, resources[..k])
    {
      assert resources[..k + 1][..k] == resources[..k];
      var blocks := context.Map(resources[k]);
      main := main + blocks;
    }
    assert resources[..|resources|] == resources;
  }
}
