/**
 What else the generator hands out, exactly: the outputs, the variables the operator must supply, and
 the warnings about everything that was left out.
 */
module TerraformReports {
  import opened CloudModel
  import opened Lists
  import opened Terraform
  import opened TerraformMapping
  import opened TerraformScoping
  import opened TerraformMeaning
  import opened Wrappers

  // ---------- Outputs ----------

  predicate InstancePublishes(c: ComputeInstance, k: string, v: Value) {
    var name := TerraformIdentifier(c.id);
    || (k == name + "_private_ip" && v == Reference(Locator("aws_instance", name), "private_ip"))
    || (k == name + "_public_ip" && c.assignPublicIp && v == Reference(Locator("aws_instance", name), "public_ip"))
  }

  /** An emitted network publishes its id, an instance its addresses, a database its endpoint and a load
      balancer its name. */
  predicate Publishes(index: Index, r: CloudResource, k: string, v: Value) {
    && Emitted(index, r)
    && var name := TerraformIdentifier(r.Id());
       match r
       case OfNetwork(_) => k == name + "_id" && v == Reference(Locator("aws_vpc", name), "id")
       case OfCompute(c) => InstancePublishes(c, k, v)
       case OfDatabase(_) => k == name + "_endpoint" && v == Reference(Locator("aws_db_instance", name), "endpoint")
       case OfBalancer(_) => k == name + "_dns_name" && v == Reference(Locator("aws_lb", name), "dns_name")
       case _ => false
  }

  predicate Holds(outputs: map<string, Value>, k: string, v: Value) {
    k in outputs && outputs[k] == v
  }

  lemma InstanceOutputsAre(c: ComputeInstance, k: string, v: Value)
    ensures Holds(InstanceOutputs(c), k, v) <==> InstancePublishes(c, k, v)
  {
    var name := TerraformIdentifier(c.id);
    assert |name + "_private_ip"| != |name + "_public_ip"|;
  }

  lemma ResourceOutputs(infra: Infrastructure, index: Index, r: CloudResource, k: string, v: Value)
    ensures Holds(Outputs(infra, index, r), k, v) <==> Publishes(index, r, k, v)
  {
    EmittedIff(infra, index, r);
    if r.OfCompute? {
      InstanceOutputsAre(r.instance, k, v);
    }
  }

  lemma {:induction false} OutputListed(infra: Infrastructure, index: Index, resources: seq<CloudResource>, r: CloudResource,
                                        k: string)
    requires r in resources && k in Outputs(infra, index, r)
    ensures k in OutputsOf(infra, index, resources)
  {
    var front, last := resources[..|resources| - 1], resources[|resources| - 1];
    if r in front {
      OutputListed(infra, index, front, r, k);
    } else {
      assert r == last;
    }
  }

  predicate IsPublished(infra: Infrastructure, k: string) {
    exists r <- Resources(infra), v <- Candidates(r) :: Publishes(TheIndex(infra), r, k, v)
  }

  /** Whatever a resource may publish. */
  function Candidates(r: CloudResource): set<Value> {
    {Reference(r.At(), "id"), Reference(r.At(), "private_ip"), Reference(r.At(), "public_ip"),
     Reference(r.At(), "endpoint"), Reference(r.At(), "dns_name")}
  }

  lemma CandidateOf(index: Index, r: CloudResource, k: string, v: Value)
    requires Publishes(index, r, k, v)
    ensures v in Candidates(r)
  {
  }

  /** outputs.tf has exactly these names, each with something published under it. */
  lemma OutputsExactly(infra: Infrastructure, k: string)
    ensures k in ProjectOf(infra).outputs <==> IsPublished(infra, k)
    ensures k in ProjectOf(infra).outputs ==>
              exists r <- Resources(infra) :: Publishes(TheIndex(infra), r, k, ProjectOf(infra).outputs[k])
  {
    var index, order := TheIndex(infra), EmissionOrder(infra);
    if k in ProjectOf(infra).outputs {
      var v := ProjectOf(infra).outputs[k];
      var r := PublishedBy(infra, k);
      CandidateOf(index, r, k, v);
    }
    if r, v :| r in Resources(infra) && v in Candidates(r) && Publishes(index, r, k, v) {
      SameResources(infra, r);
      ResourceOutputs(infra, index, r, k, v);
      OutputListed(infra, index, order, r, k);
    }
  }

  lemma PublishedBy(infra: Infrastructure, k: string) returns (r: CloudResource)
    requires k in ProjectOf(infra).outputs
    ensures r in Resources(infra) && Publishes(TheIndex(infra), r, k, ProjectOf(infra).outputs[k])
  {
    var index := TheIndex(infra);
    InOutputs(infra, index, EmissionOrder(infra), k);
    r :| r in EmissionOrder(infra) && k in Outputs(infra, index, r)
         && Outputs(infra, index, r)[k] == ProjectOf(infra).outputs[k];
    SameResources(infra, r);
    ResourceOutputs(infra, index, r, k, ProjectOf(infra).outputs[k]);
  }

  // ---------- Variables ----------

  /** An instance without a key asks for one; a database asks for its credentials. */
  predicate Asks(index: Index, r: CloudResource, variable: string) {
    && Emitted(index, r)
    && match r
       case OfCompute(c) => variable == "ssh_key_name" && (c.keyName == None || c.keyName == Some(""))
       case OfDatabase(d) =>
         variable == TerraformIdentifier(d.id) + "_username" || variable == TerraformIdentifier(d.id) + "_password"
       case _ => false
  }

  lemma ResourceVariables(infra: Infrastructure, index: Index, r: CloudResource, variable: string)
    ensures variable in Variables(infra, index, r) <==> Asks(index, r, variable)
  {
    EmittedIff(infra, index, r);
  }

  lemma VariablesExactly(infra: Infrastructure, variable: string)
    ensures variable in ProjectOf(infra).variables
            <==> variable == "aws_region" || exists r <- Resources(infra) :: Asks(TheIndex(infra), r, variable)
  {
    VariableDeclaredIff(infra, variable);
    if r :| r in Resources(infra) && variable in Variables(infra, TheIndex(infra), r) {
      ResourceVariables(infra, TheIndex(infra), r, variable);
    }
    if r :| r in Resources(infra) && Asks(TheIndex(infra), r, variable) {
      ResourceVariables(infra, TheIndex(infra), r, variable);
    }
  }

  // ---------- Warnings ----------

  predicate Unknown(index: Index, id: Option<string>) {
    id == None || id == Some("") || id.value !in index
  }

  predicate TableComplains(index: Index, t: RouteTable, code: string) {
    if t.networkId !in index then code == "unresolved_network_reference"
    else
      || (code == "unresolved_route_target" && exists r <- t.routes :: r.targetRef !in index)
      || (code == "unresolved_subnet_association" && exists id <- t.associatedSubnetIds :: id !in index)
  }

  predicate GatewayComplains(infra: Infrastructure, index: Index, g: Gateway, code: string) {
    match g.kind
    case Internet => code == "unresolved_network_reference" && Unknown(index, g.networkId)
    case Nat => code == "nat_gateway_without_public_subnet" && Unknown(index, g.subnetId)
    case Peering =>
      if |g.peerNetworkIds| != 2 then code == "peering_needs_exactly_two_networks"
      else code == "unresolved_peer_network" && exists id <- g.peerNetworkIds :: id !in index
    case Transit =>
      code == "transit_attachment_incomplete"
      && exists id <- g.peerNetworkIds :: id !in index || !SomeSubnetKnown(infra, index, id)
    case _ => code == "unsupported_gateway_type"
  }

  predicate RuleComplains(index: Index, r: SecurityRule, code: string) {
    if r.sourceSecurityGroupId.Some? && r.sourceSecurityGroupId.value != "" then
      code == "unresolved_security_group_reference" && r.sourceSecurityGroupId.value !in index
    else code == "rule_without_source" && r.cidrBlocks == []
  }

  predicate GroupComplains(index: Index, g: SecurityGroup, code: string) {
    if g.networkId !in index then code == "unresolved_network_reference"
    else exists r <- g.rules :: RuleComplains(index, r, code)
  }

  predicate InstanceComplains(index: Index, c: ComputeInstance, code: string) {
    if !IsPlacedIn(index, c) then code == "compute_without_subnet"
    else
      code == "unresolved_interface_subnet"
      && exists nic <- c.interfaces :: !nic.primary && !LivesIn(c, nic.subnetId) && nic.subnetId !in index
  }

  predicate BalancerComplains(index: Index, b: LoadBalancer, code: string) {
    if forall id <- b.subnetIds :: id !in index then code == "load_balancer_without_subnets"
    else code == "listener_without_network" && b.listeners > 0 && Unknown(index, b.networkId)
  }

  /** What a warning about a resource says. */
  predicate Complains(infra: Infrastructure, index: Index, r: CloudResource, code: string) {
    match r
    case OfNetwork(_) => false
    case OfSubnet(s) => code == "unresolved_network_reference" && s.networkId !in index
    case OfTable(t) => TableComplains(index, t, code)
    case OfGateway(g) => GatewayComplains(infra, index, g, code)
    case OfGroup(g) => GroupComplains(index, g, code)
    case OfCompute(c) => InstanceComplains(index, c, code)
    case OfDatabase(d) => code == "db_subnet_group_needs_two_subnets" && !KnownTwice(index, d.subnetIds)
    case OfBalancer(b) => BalancerComplains(index, b, code)
  }

  lemma TableNoted(index: Index, t: RouteTable, w: MappingWarning)
    ensures w in TableNotes(index, t) <==> w.subject == t.id && TableComplains(index, t, w.code)
  {
    FilterMapMember(t.routes, RouteNote(index, t.id), w);
    FilterMapMember(t.associatedSubnetIds, AssociationNote(index, t.id), w);
    if r :| t.networkId in index && r in t.routes && r.targetRef !in index && w == MappingWarning("unresolved_route_target", t.id) {
      assert RouteNote(index, t.id)(r) == Some(w);
    }
    if id :| t.networkId in index && id in t.associatedSubnetIds && id !in index
             && w == MappingWarning("unresolved_subnet_association", t.id) {
      assert AssociationNote(index, t.id)(id) == Some(w);
    }
  }

  lemma TransitNoted(infra: Infrastructure, index: Index, g: Gateway, w: MappingWarning)
    requires g.kind.Transit?
    ensures w in GatewayNotes(infra, index, g) <==> w.subject == g.id && GatewayComplains(infra, index, g, w.code)
  {
    FilterMapMember(g.peerNetworkIds, AttachmentNote(infra, index, g.id), w);
    if id :| id in g.peerNetworkIds && (id !in index || !SomeSubnetKnown(infra, index, id))
             && w == MappingWarning("transit_attachment_incomplete", g.id) {
      assert AttachmentNote(infra, index, g.id)(id) == Some(w);
    }
  }

  lemma GatewayNoted(infra: Infrastructure, index: Index, g: Gateway, w: MappingWarning)
    ensures w in GatewayNotes(infra, index, g) <==> w.subject == g.id && GatewayComplains(infra, index, g, w.code)
  {
    if g.kind.Transit? {
      TransitNoted(infra, index, g, w);
    }
  }

  lemma RuleNoted(index: Index, groupId: string, r: SecurityRule, w: MappingWarning)
    ensures RuleNote(index, groupId)(r) == Some(w) <==> w.subject == groupId && RuleComplains(index, r, w.code)
  {
  }

  lemma GroupNoted(infra: Infrastructure, index: Index, g: SecurityGroup, w: MappingWarning)
    ensures w in Notes(infra, index, OfGroup(g)) <==> w.subject == g.id && GroupComplains(index, g, w.code)
  {
    FilterMapMember(g.rules, RuleNote(index, g.id), w);
    forall r | r in g.rules
      ensures RuleNote(index, g.id)(r) == Some(w) <==> w.subject == g.id && RuleComplains(index, r, w.code)
    {
      RuleNoted(index, g.id, r, w);
    }
  }

  lemma PlacedIffKnown(index: Index, c: ComputeInstance)
    ensures IsPlacedIn(index, c) <==> Known(index, PrimarySubnet(c))
  {
    if id :| id in index && LivesIn(c, id) {
      PlaceMeans(index, c, id);
    }
    if Known(index, PrimarySubnet(c)) {
      PlaceMeans(index, c, PrimarySubnet(c).value);
    }
  }

  lemma NicNoted(index: Index, c: ComputeInstance, nic: NetworkInterface, w: MappingWarning)
    requires IsPlacedIn(index, c)
    ensures NicNote(index, c)(nic) == Some(w) <==>
            && w == MappingWarning("unresolved_interface_subnet", c.id)
            && !nic.primary && !LivesIn(c, nic.subnetId) && nic.subnetId !in index
  {
    PlacedIffKnown(index, c);
  }

  lemma InstanceNoted(infra: Infrastructure, index: Index, c: ComputeInstance, w: MappingWarning)
    ensures w in Notes(infra, index, OfCompute(c)) <==> w.subject == c.id && InstanceComplains(index, c, w.code)
  {
    PlacedIffKnown(index, c);
    FilterMapMember(c.interfaces, NicNote(index, c), w);
    if IsPlacedIn(index, c) {
      forall nic | nic in c.interfaces
        ensures NicNote(index, c)(nic) == Some(w) <==>
                && w == MappingWarning("unresolved_interface_subnet", c.id)
                && !nic.primary && !LivesIn(c, nic.subnetId) && nic.subnetId !in index
      {
        NicNoted(index, c, nic, w);
      }
    }
  }

  lemma BalancerNoted(index: Index, b: LoadBalancer, w: MappingWarning)
    ensures w in BalancerNotes(index, b) <==> w.subject == b.id && BalancerComplains(index, b, w.code)
  {
  }

  lemma Noted(infra: Infrastructure, index: Index, r: CloudResource, w: MappingWarning)
    ensures w in Notes(infra, index, r) <==> w.subject == r.Id() && Complains(infra, index, r, w.code)
  {
    match r
    case OfTable(t) => TableNoted(index, t, w);
    case OfGateway(g) => GatewayNoted(infra, index, g, w);
    case OfGroup(g) => GroupNoted(infra, index, g, w);
    case OfCompute(c) => InstanceNoted(infra, index, c, w);
    case OfDatabase(d) => FoundTwice(index, d.subnetIds);
    case OfBalancer(b) => BalancerNoted(index, b, w);
    case OfNetwork(_) =>
    case OfSubnet(_) =>
  }

  /** The generator warns about a resource exactly when something of it leads nowhere, and says what. */
  lemma WarningsExactly(infra: Infrastructure, w: MappingWarning)
    ensures w in NotesOf(infra, TheIndex(infra), EmissionOrder(infra)) <==>
            exists r <- Resources(infra) :: w.subject == r.Id() && Complains(infra, TheIndex(infra), r, w.code)
  {
    var index := TheIndex(infra);
    NotedAll(infra, index, EmissionOrder(infra), w);
    if r :| r in EmissionOrder(infra) && w in Notes(infra, index, r) {
      SameResources(infra, r);
      Noted(infra, index, r, w);
    }
    if r :| r in Resources(infra) && w.subject == r.Id() && Complains(infra, index, r, w.code) {
      SameResources(infra, r);
      Noted(infra, index, r, w);
    }
  }
}
