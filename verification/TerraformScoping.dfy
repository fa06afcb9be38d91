/**
 The generated Terraform is well scoped: every reference names a block that is emitted, every
 variable is declared, every data source is in data.tf. Addresses are indexed for all resources,
 but a mapper may still drop one, so nothing dropped may be referred to; and an image that is printed
 as an expression must name something that is declared.
 */
module TerraformScoping {
  import opened Addressing
  import opened CloudModel
  import opened Decimal
  import opened Lists
  import opened Terraform
  import opened TerraformMapping
  import opened Wrappers

  predicate Declared(main: seq<Block>, a: Locator) {
    exists b <- main :: b.At() == a
  }

  /** What data.tf declares. */
  predicate IsData(kind: string, name: string) {
    || (kind == "aws_availability_zones" && name == "available")
    || (kind == "aws_ami" && name == "amazon_linux")
  }

  /** The variable every project declares. */
  const REGION := "aws_region"

  predicate UseDeclared(p: Project, u: Use) {
    match u
    case OfResource(a) => Declared(p.main, a)
    case OfVariable(n) => n in p.variables
    case OfData(kind, name) => IsData(kind, name)
    case OfText(_) => false
  }

  /** Everything an expression in main.tf or outputs.tf stands on is declared. */
  ghost predicate WellScoped(p: Project) {
    && (forall u :: Mentions(p.main, u) ==> UseDeclared(p, u))
    && (forall k <- p.outputs, u <- UsesOf(p.outputs[k]) :: UseDeclared(p, u))
  }

  // ---------- What a resource stands on, read off its fields ----------

  function Given(id: Option<string>): set<string> {
    if id.Some? && id.value != "" then {id.value} else {}
  }

  function Ids(ids: seq<string>): set<string> {
    set id <- ids
  }

  predicate SomeKnown(index: Index, ids: seq<string>) {
    exists id <- ids :: id in index
  }

  function TableIds(t: RouteTable): set<string> {
    {t.networkId} + Targets(t.routes) + Ids(t.associatedSubnetIds)
  }

  /** A network is attached to a transit gateway when it and one of its subnets are known. */
  function AttachmentIds(infra: Infrastructure, index: Index, networkId: string): set<string> {
    if networkId in index && SomeKnown(index, SubnetIdsOf(infra, networkId))
    then {networkId} + Ids(SubnetIdsOf(infra, networkId))
    else {}
  }

  function GatewayIds(infra: Infrastructure, index: Index, g: Gateway): set<string> {
    match g.kind
    case Internet => Given(g.networkId)
    case Nat => Given(g.subnetId)
    case Peering => Ids(g.peerNetworkIds)
    case Transit => set n <- g.peerNetworkIds, id <- AttachmentIds(infra, index, n) :: id
    case _ => {}
  }

  function GroupIds(g: SecurityGroup): set<string> {
    {g.networkId} + RuleIds(g.rules)
  }

  predicate IsSecondary(c: ComputeInstance, nic: NetworkInterface) {
    !nic.primary && Some(nic.subnetId) != PrimarySubnet(c)
  }

  function SecondarySubnets(c: ComputeInstance, nics: seq<NetworkInterface>): set<string> {
    set nic <- nics | IsSecondary(c, nic) :: nic.subnetId
  }

  function InstanceIds(c: ComputeInstance): set<string> {
    Given(PrimarySubnet(c)) + Ids(c.securityGroupIds) + SecondarySubnets(c, c.interfaces)
  }

  function DatabaseIds(d: Database): set<string> {
    Ids(d.subnetIds) + Ids(d.securityGroupIds)
  }

  function BalancerIds(index: Index, b: LoadBalancer): set<string> {
    Ids(b.subnetIds)
    + (if b.isApplication then Ids(b.securityGroupIds) else {})
    + (if b.listeners > 0 && FindGiven(index, b.networkId).Some? then Given(b.networkId) + Ids(b.targetComputeIds) else {})
  }

  /** The ids a resource uses when it is emitted, known or not. */
  function UsedIds(infra: Infrastructure, index: Index, r: CloudResource): set<string> {
    match r
    case OfNetwork(_) => {}
    case OfSubnet(s) => {s.networkId}
    case OfTable(t) => TableIds(t)
    case OfGateway(g) => GatewayIds(infra, index, g)
    case OfGroup(g) => GroupIds(g)
    case OfCompute(c) => InstanceIds(c)
    case OfDatabase(d) => DatabaseIds(d)
    case OfBalancer(b) => BalancerIds(index, b)
  }

  /** A resource the mappers do not drop. */
  predicate Emitted(index: Index, r: CloudResource) {
    match r
    case OfNetwork(_) => true
    case OfSubnet(s) => s.networkId in index
    case OfTable(t) => t.networkId in index
    case OfGateway(g) =>
      (match g.kind
       case Internet => FindGiven(index, g.networkId).Some?
       case Nat => FindGiven(index, g.subnetId).Some?
       case Peering => |g.peerNetworkIds| == 2 && forall n <- g.peerNetworkIds :: n in index
       case Transit => true
       case _ => false)
    case OfGroup(g) => g.networkId in index
    case OfCompute(c) => FindGiven(index, PrimarySubnet(c)).Some?
    case OfDatabase(d) => |FilterMap(d.subnetIds, Finder(index))| >= 2
    case OfBalancer(b) => SomeKnown(index, b.subnetIds)
  }

  lemma FoundIff(index: Index, ids: seq<string>)
    ensures FilterMap(ids, Finder(index)) != [] <==> SomeKnown(index, ids)
  {
    FilterMapEmpty(ids, Finder(index));
  }

  lemma EmittedIff(infra: Infrastructure, index: Index, r: CloudResource)
    ensures Blocks(infra, index, r) != [] <==> Emitted(index, r)
  {
    if r.OfBalancer? {
      FoundIff(index, r.balancer.subnetIds);
    }
  }

  // ---------- Uses of blocks ----------

  /** The address of one of these ids. */
  predicate FromIds(index: Index, ids: set<string>, u: Use) {
    exists id <- ids :: id in index && u == OfResource(index[id])
  }

  /** The address of one of these blocks. */
  predicate FromBlocks(blocks: seq<Block>, u: Use) {
    exists b <- blocks :: u == OfResource(b.At())
  }

  lemma FromMore(index: Index, some: set<string>, all: set<string>, u: Use)
    requires some <= all && FromIds(index, some, u)
    ensures FromIds(index, all, u)
  {
  }

  lemma MentionsConcat(a: seq<Block>, b: seq<Block>, u: Use)
    ensures Mentions(a + b, u) <==> Mentions(a, u) || Mentions(b, u)
    ensures FromBlocks(a + b, u) <==> FromBlocks(a, u) || FromBlocks(b, u)
  {
  }

  lemma MentionConcat(a: seq<Attribute>, b: seq<Attribute>, u: Use)
    ensures Mention(a + b, u) <==> Mention(a, u) || Mention(b, u)
  {
  }

  lemma MentionOne(a: Attribute, u: Use)
    ensures Mention([a], u) <==> u in UsesOf(a.value)
  {
    assert a in [a];
  }

  lemma MentionTwo(a: Attribute, b: Attribute, u: Use)
    ensures Mention([a, b], u) <==> u in UsesOf(a.value) || u in UsesOf(b.value)
  {
    assert a in [a, b] && b in [a, b];
  }

  lemma MentionThree(a: Attribute, b: Attribute, c: Attribute, u: Use)
    ensures Mention([a, b, c], u) <==> u in UsesOf(a.value) || u in UsesOf(b.value) || u in UsesOf(c.value)
  {
    assert a in [a, b, c] && b in [a, b, c] && c in [a, b, c];
  }

  function FoundIds(index: Index, ids: seq<string>): Value {
    References(FilterMap(ids, Finder(index)))
  }

  /** A reference list uses exactly what was found. */
  lemma ListUses(index: Index, ids: seq<string>, u: Use)
    ensures u in UsesOf(FoundIds(index, ids)) <==> FromIds(index, Ids(ids), u)
  {
    if u.OfResource? {
      FilterMapMember(ids, Finder(index), u.address);
      if id :| id in ids && Finder(index)(id) == Some(u.address) {
        assert id in Ids(ids) && id in index && index[id] == u.address;
      }
      if id :| id in Ids(ids) && id in index && u == OfResource(index[id]) {
        assert Finder(index)(id) == Some(u.address);
      }
    }
  }

  // Networks.

  lemma {:induction false} SecondaryUses(name: string, cidrs: seq<SubnetSpec>, u: Use)
    requires Mentions(Secondary(name, cidrs), u)
    ensures u == OfResource(Locator("aws_vpc", name))
  {
    if Mentions(Secondary(name, cidrs[..|cidrs| - 1]), u) {
      SecondaryUses(name, cidrs[..|cidrs| - 1], u);
    }
  }

  lemma NetworkUses(n: VirtualNetwork, u: Use)
    requires Mentions(NetworkBlocks(n), u)
    ensures FromBlocks(NetworkBlocks(n), u)
  {
    var name, blocks := TerraformIdentifier(n.id), NetworkBlocks(n);
    assert blocks[0].At() == Locator("aws_vpc", name);
    if Mentions(Secondary(name, n.secondaryCidrs), u) {
      SecondaryUses(name, n.secondaryCidrs, u);
    }
  }

  // Subnets.

  lemma SubnetUses(infra: Infrastructure, index: Index, s: Subnet, u: Use)
    requires Mentions(SubnetBlocks(infra, index, s), u)
    ensures FromIds(index, {s.networkId}, u) || u == OfData("aws_availability_zones", "available")
  {
    assert s.networkId in {s.networkId};
  }

  // Route tables.

  predicate NestedMention(blocks: seq<Nested>, u: Use) {
    exists n <- blocks :: Mention(n.attributes, u)
  }

  function Targets(routes: seq<Route>): set<string> {
    set x <- routes :: x.targetRef
  }

  lemma RouteUse(index: Index, r: Route, u: Use)
    requires RouteBlock(index, r).Some?
    ensures Mention(RouteBlock(index, r).value.attributes, u) <==> u == OfResource(index[r.targetRef])
  {
    var attributes := RouteBlock(index, r).value.attributes;
    MentionTwo(attributes[0], attributes[1], u);
  }

  lemma RoutesUse(index: Index, routes: seq<Route>, u: Use)
    requires NestedMention(FilterMap(routes, RouteMaker(index)), u)
    ensures FromIds(index, Targets(routes), u)
  {
    var n :| n in FilterMap(routes, RouteMaker(index)) && Mention(n.attributes, u);
    FilterMapMember(routes, RouteMaker(index), n);
    var r :| r in routes && RouteMaker(index)(r) == Some(n);
    RouteUse(index, r, u);
    assert r.targetRef in Targets(routes);
  }

  lemma TargetUsed(index: Index, routes: seq<Route>, id: string)
    requires id in Targets(routes) && id in index
    ensures NestedMention(FilterMap(routes, RouteMaker(index)), OfResource(index[id]))
  {
    var r :| r in routes && r.targetRef == id;
    var n := RouteBlock(index, r).value;
    assert RouteMaker(index)(r) == Some(n);
    FilterMapMember(routes, RouteMaker(index), n);
    RouteUse(index, r, OfResource(index[id]));
  }

  lemma AssociationUse(index: Index, name: string, id: string, u: Use)
    requires Association(index, name, id).Some?
    ensures BlockMentions(Association(index, name, id).value, u)
            <==> u == OfResource(Locator("aws_route_table", name)) || u == OfResource(index[id])
  {
    var b := Association(index, name, id).value;
    MentionTwo(b.attributes[0], b.attributes[1], u);
  }

  lemma AssociationUses(index: Index, ids: seq<string>, name: string, u: Use)
    requires Mentions(FilterMap(ids, AssociationMaker(index, name)), u)
    ensures FromIds(index, Ids(ids), u) || u == OfResource(Locator("aws_route_table", name))
  {
    var b :| b in FilterMap(ids, AssociationMaker(index, name)) && BlockMentions(b, u);
    FilterMapMember(ids, AssociationMaker(index, name), b);
    var id :| id in ids && AssociationMaker(index, name)(id) == Some(b);
    AssociationUse(index, name, id, u);
    assert id in Ids(ids);
  }

  lemma TableUses(index: Index, t: RouteTable, u: Use)
    requires Mentions(TableBlocks(index, t), u)
    ensures FromBlocks(TableBlocks(index, t), u) || FromIds(index, TableIds(t), u)
  {
    var name, table := TerraformIdentifier(t.id), TableBlocks(index, t)[0];
    var associations := FilterMap(t.associatedSubnetIds, AssociationMaker(index, name));
    MentionsConcat([table], associations, u);
    if Mentions(associations, u) {
      AssociationUses(index, t.associatedSubnetIds, name, u);
      assert u == OfResource(table.At()) ==> table in TableBlocks(index, t);
    } else {
      if NestedMention(table.blocks, u) {
        RoutesUse(index, t.routes, u);
        FromMore(index, Targets(t.routes), TableIds(t), u);
      } else {
        MentionOne(table.attributes[0], u);
        assert t.networkId in TableIds(t);
      }
    }
  }

  // Gateways.

  lemma AttachmentUses(infra: Infrastructure, index: Index, name: string, networkId: string, u: Use)
    requires Attachment(infra, index, name, networkId).Some?
    ensures BlockMentions(Attachment(infra, index, name, networkId).value, u)
            <==> u == OfResource(Locator("aws_ec2_transit_gateway", name))
                 || FromIds(index, AttachmentIds(infra, index, networkId), u)
  {
    var b, ids := Attachment(infra, index, name, networkId).value, SubnetIdsOf(infra, networkId);
    FoundIff(index, ids);
    ListUses(index, ids, u);
    MentionThree(b.attributes[0], b.attributes[1], b.attributes[2], u);
    OneMoreId(index, networkId, Ids(ids), u);
  }

  lemma OneMoreId(index: Index, id: string, ids: set<string>, u: Use)
    requires id in index
    ensures FromIds(index, {id} + ids, u) <==> u == OfResource(index[id]) || FromIds(index, ids, u)
  {
    assert id in {id} + ids;
  }

  lemma AttachmentIdsWithin(infra: Infrastructure, index: Index, g: Gateway, n: string)
    requires g.kind.Transit? && n in g.peerNetworkIds
    ensures AttachmentIds(infra, index, n) <= GatewayIds(infra, index, g)
  {
  }

  lemma AttachmentFrom(infra: Infrastructure, index: Index, name: string, ids: seq<string>, b: Block) returns (n: string)
    requires b in FilterMap(ids, AttachmentMaker(infra, index, name))
    ensures n in ids && Attachment(infra, index, name, n) == Some(b)
  {
    FilterMapMember(ids, AttachmentMaker(infra, index, name), b);
    n :| n in ids && AttachmentMaker(infra, index, name)(n) == Some(b);
  }

  lemma AttachmentsUse(infra: Infrastructure, index: Index, g: Gateway, u: Use)
    requires g.kind.Transit?
    requires Mentions(FilterMap(g.peerNetworkIds, AttachmentMaker(infra, index, TerraformIdentifier(g.id))), u)
    ensures u == OfResource(Locator("aws_ec2_transit_gateway", TerraformIdentifier(g.id)))
            || FromIds(index, GatewayIds(infra, index, g), u)
  {
    var name := TerraformIdentifier(g.id);
    var b :| b in FilterMap(g.peerNetworkIds, AttachmentMaker(infra, index, name)) && BlockMentions(b, u);
    var n := AttachmentFrom(infra, index, name, g.peerNetworkIds, b);
    AttachmentUses(infra, index, name, n, u);
    if FromIds(index, AttachmentIds(infra, index, n), u) {
      AttachmentIdsWithin(infra, index, g, n);
      FromMore(index, AttachmentIds(infra, index, n), GatewayIds(infra, index, g), u);
    }
  }

  lemma TransitUses(infra: Infrastructure, index: Index, g: Gateway, u: Use)
    requires g.kind.Transit? && Mentions(GatewayBlocks(infra, index, g), u)
    ensures FromBlocks(GatewayBlocks(infra, index, g), u) || FromIds(index, GatewayIds(infra, index, g), u)
  {
    var name, blocks := TerraformIdentifier(g.id), GatewayBlocks(infra, index, g);
    MentionOne(blocks[0].attributes[0], u);
    MentionsConcat([blocks[0]], FilterMap(g.peerNetworkIds, AttachmentMaker(infra, index, name)), u);
    AttachmentsUse(infra, index, g, u);
    assert blocks[0] in blocks;
  }

  lemma SoleId(index: Index, id: string, u: Use)
    requires id in index
    ensures FromIds(index, {id}, u) <==> u == OfResource(index[id])
  {
    assert id in {id};
  }

  lemma InternetUses(infra: Infrastructure, index: Index, g: Gateway, u: Use)
    requires g.kind.Internet? && Mentions(GatewayBlocks(infra, index, g), u)
    ensures FromIds(index, GatewayIds(infra, index, g), u)
  {
    SoleId(index, g.networkId.value, u);
  }

  lemma NatUses(infra: Infrastructure, index: Index, g: Gateway, u: Use)
    requires g.kind.Nat? && Mentions(GatewayBlocks(infra, index, g), u)
    ensures FromBlocks(GatewayBlocks(infra, index, g), u) || FromIds(index, GatewayIds(infra, index, g), u)
  {
    var blocks := GatewayBlocks(infra, index, g);
    assert blocks[0] in blocks;
    MentionTwo(blocks[1].attributes[0], blocks[1].attributes[1], u);
    SoleId(index, g.subnetId.value, u);
  }

  lemma PeeringUses(infra: Infrastructure, index: Index, g: Gateway, u: Use)
    requires g.kind.Peering? && Mentions(GatewayBlocks(infra, index, g), u)
    ensures FromIds(index, GatewayIds(infra, index, g), u)
  {
    var left, right := g.peerNetworkIds[0], g.peerNetworkIds[1];
    assert left in Ids(g.peerNetworkIds) && right in Ids(g.peerNetworkIds);
    var b := GatewayBlocks(infra, index, g)[0];
    MentionThree(b.attributes[0], b.attributes[1], b.attributes[2], u);
  }

  lemma GatewayUses(infra: Infrastructure, index: Index, g: Gateway, u: Use)
    requires Mentions(GatewayBlocks(infra, index, g), u)
    ensures FromBlocks(GatewayBlocks(infra, index, g), u) || FromIds(index, GatewayIds(infra, index, g), u)
  {
    match g.kind {
      case Transit => TransitUses(infra, index, g, u);
      case Internet => InternetUses(infra, index, g, u);
      case Nat => NatUses(infra, index, g, u);
      case Peering => PeeringUses(infra, index, g, u);
      case _ =>
    }
  }

  // Security groups.

  function RuleIds(rules: seq<SecurityRule>): set<string> {
    set x <- rules, id <- Given(x.sourceSecurityGroupId) :: id
  }

  lemma RuleUse(index: Index, r: SecurityRule, u: Use)
    requires RuleBlock(index, r).Some?
    ensures Mention(RuleBlock(index, r).value.attributes, u) <==> FromIds(index, Given(r.sourceSecurityGroupId), u)
  {
    var attributes := RuleBlock(index, r).value.attributes;
    MentionTwo(attributes[0], attributes[1], u);
    if Given(r.sourceSecurityGroupId) != {} {
      SoleId(index, r.sourceSecurityGroupId.value, u);
    }
  }

  lemma RulesUse(index: Index, rules: seq<SecurityRule>, u: Use)
    requires NestedMention(FilterMap(rules, RuleMaker(index)), u)
    ensures FromIds(index, RuleIds(rules), u)
  {
    var n :| n in FilterMap(rules, RuleMaker(index)) && Mention(n.attributes, u);
    FilterMapMember(rules, RuleMaker(index), n);
    var r :| r in rules && RuleMaker(index)(r) == Some(n);
    RuleUse(index, r, u);
    FromMore(index, Given(r.sourceSecurityGroupId), RuleIds(rules), u);
  }

  lemma RuleIdUsed(index: Index, rules: seq<SecurityRule>, id: string)
    requires id in RuleIds(rules) && id in index
    ensures NestedMention(FilterMap(rules, RuleMaker(index)), OfResource(index[id]))
  {
    var r :| r in rules && id in Given(r.sourceSecurityGroupId);
    var n := RuleBlock(index, r).value;
    assert RuleMaker(index)(r) == Some(n);
    FilterMapMember(rules, RuleMaker(index), n);
    RuleUse(index, r, OfResource(index[id]));
  }

  lemma GroupUses(index: Index, g: SecurityGroup, u: Use)
    requires Mentions(GroupBlocks(index, g), u)
    ensures FromIds(index, GroupIds(g), u)
  {
    var block := GroupBlocks(index, g)[0];
    if NestedMention(block.blocks, u) {
      RulesUse(index, g.rules, u);
      FromMore(index, RuleIds(g.rules), GroupIds(g), u);
    } else {
      MentionTwo(block.attributes[0], block.attributes[1], u);
      assert g.networkId in GroupIds(g);
    }
  }

  // Instances.

  /** What the image of an instance stands on. */
  predicate ImageUse(image: Option<string>, u: Use) {
    u == OfData("aws_ami", "amazon_linux") || (LooksLikeReference(image) && u in UsesOf(Verbatim(image.value)))
  }

  lemma OptionalMention(wanted: bool, a: Attribute, u: Use)
    ensures Mention(if wanted then [a] else [], u) <==> wanted && u in UsesOf(a.value)
  {
    if wanted {
      MentionOne(a, u);
    }
  }

  lemma InstanceAttributesUse(index: Index, c: ComputeInstance, subnet: Locator, u: Use)
    ensures Mention(InstanceAttributes(index, c, subnet), u) <==>
            || u in UsesOf(Image(c.image)) || u == OfResource(subnet) || u in UsesOf(FoundIds(index, c.securityGroupIds))
            || (!HasKey(c) && u == OfVariable("ssh_key_name"))
  {
    var groups := FilterMap(c.securityGroupIds, Finder(index));
    var ends := [Attribute("ami", Image(c.image)), Attribute("subnet_id", ById(subnet))];
    var groupList := Attribute("vpc_security_group_ids", References(groups));
    var public := Attribute("associate_public_ip_address", Flag(true));
    var forwards := Attribute("source_dest_check", Flag(false));
    var key := Attribute("key_name", if HasKey(c) then Text(c.keyName.value) else VariableReference("ssh_key_name"));
    MentionTwo(ends[0], ends[1], u);
    OptionalMention(groups != [], groupList, u);
    OptionalMention(c.assignPublicIp, public, u);
    OptionalMention(c.isForwarder, forwards, u);
    MentionOne(key, u);
    var withGroups := ends + if groups != [] then [groupList] else [];
    var withAddress := withGroups + if c.assignPublicIp then [public] else [];
    var withCheck := withAddress + if c.isForwarder then [forwards] else [];
    MentionConcat(ends, if groups != [] then [groupList] else [], u);
    MentionConcat(withGroups, if c.assignPublicIp then [public] else [], u);
    MentionConcat(withAddress, if c.isForwarder then [forwards] else [], u);
    MentionConcat(withCheck, [key], u);
    assert InstanceAttributes(index, c, subnet) == withCheck + [key];
  }

  lemma NicUses(index: Index, name: string, c: ComputeInstance, nic: NetworkInterface, u: Use)
    requires Mentions(NicBlocks(index, name, PrimarySubnet(c), nic), u)
    ensures || u == OfResource(Locator("aws_instance", name)) || FromBlocks(NicBlocks(index, name, PrimarySubnet(c), nic), u)
            || (IsSecondary(c, nic) && nic.subnetId in index && u == OfResource(index[nic.subnetId]))
  {
    var blocks := NicBlocks(index, name, PrimarySubnet(c), nic);
    assert blocks[0] in blocks;
  }

  lemma {:induction false} AllNicsUse(index: Index, name: string, c: ComputeInstance, nics: seq<NetworkInterface>, u: Use)
    requires Mentions(AllNicBlocks(index, name, PrimarySubnet(c), nics), u)
    ensures || u == OfResource(Locator("aws_instance", name))
            || FromBlocks(AllNicBlocks(index, name, PrimarySubnet(c), nics), u)
            || FromIds(index, SecondarySubnets(c, nics), u)
  {
    var front, last := nics[..|nics| - 1], nics[|nics| - 1];
    var own := NicBlocks(index, name, PrimarySubnet(c), last);
    MentionsConcat(AllNicBlocks(index, name, PrimarySubnet(c), front), own, u);
    if Mentions(own, u) {
      NicUses(index, name, c, last, u);
      assert IsSecondary(c, last) ==> last.subnetId in SecondarySubnets(c, nics);
    } else {
      AllNicsUse(index, name, c, front, u);
      if FromIds(index, SecondarySubnets(c, front), u) {
        FromMore(index, SecondarySubnets(c, front), SecondarySubnets(c, nics), u);
      }
    }
  }

  lemma FurtherNicsUse(index: Index, c: ComputeInstance, u: Use)
    requires FindGiven(index, PrimarySubnet(c)).Some?
    requires Mentions(AllNicBlocks(index, TerraformIdentifier(c.id), PrimarySubnet(c), c.interfaces), u)
    ensures FromBlocks(InstanceBlocks(index, c), u) || FromIds(index, InstanceIds(c), u)
  {
    var name, blocks := TerraformIdentifier(c.id), InstanceBlocks(index, c);
    AllNicsUse(index, name, c, c.interfaces, u);
    if FromIds(index, SecondarySubnets(c, c.interfaces), u) {
      FromMore(index, SecondarySubnets(c, c.interfaces), InstanceIds(c), u);
    } else {
      assert blocks[0] in blocks && blocks[0].At() == Locator("aws_instance", name);
    }
  }

  lemma GroupsUsed(index: Index, c: ComputeInstance, u: Use)
    requires u in UsesOf(FoundIds(index, c.securityGroupIds))
    ensures FromIds(index, InstanceIds(c), u)
  {
    ListUses(index, c.securityGroupIds, u);
    FromMore(index, Ids(c.securityGroupIds), InstanceIds(c), u);
  }

  lemma ImageUses(image: Option<string>, u: Use)
    ensures u in UsesOf(Image(image)) ==> ImageUse(image, u)
    ensures LooksLikeReference(image) ==> UsesOf(Image(image)) == UsesOf(Verbatim(image.value))
  {
  }

  lemma InstanceItselfUses(index: Index, c: ComputeInstance, u: Use)
    requires FindGiven(index, PrimarySubnet(c)).Some?
    requires Mention(InstanceAttributes(index, c, index[PrimarySubnet(c).value]), u)
    ensures FromIds(index, InstanceIds(c), u) || ImageUse(c.image, u) || (!HasKey(c) && u == OfVariable("ssh_key_name"))
  {
    var id := PrimarySubnet(c).value;
    InstanceAttributesUse(index, c, index[id], u);
    ImageUses(c.image, u);
    if u in UsesOf(FoundIds(index, c.securityGroupIds)) {
      GroupsUsed(index, c, u);
    } else if u == OfResource(index[id]) {
      PrimaryUsed(index, c, u);
    }
  }

  lemma PrimaryUsed(index: Index, c: ComputeInstance, u: Use)
    requires FindGiven(index, PrimarySubnet(c)).Some? && u == OfResource(index[PrimarySubnet(c).value])
    ensures FromIds(index, InstanceIds(c), u)
  {
    var id := PrimarySubnet(c).value;
    SoleId(index, id, u);
    FromMore(index, {id}, InstanceIds(c), u);
  }

  lemma InstanceUses(index: Index, c: ComputeInstance, u: Use)
    requires Mentions(InstanceBlocks(index, c), u)
    ensures || FromBlocks(InstanceBlocks(index, c), u) || FromIds(index, InstanceIds(c), u) || ImageUse(c.image, u)
            || (!HasKey(c) && u == OfVariable("ssh_key_name"))
  {
    var instance := InstanceBlocks(index, c)[0];
    var nics := AllNicBlocks(index, TerraformIdentifier(c.id), PrimarySubnet(c), c.interfaces);
    MentionsConcat([instance], nics, u);
    if Mentions(nics, u) {
      FurtherNicsUse(index, c, u);
    } else {
      InstanceItselfUses(index, c, u);
    }
  }

  // Databases.

  lemma DatabaseBlockUses(index: Index, d: Database, u: Use)
    requires DatabaseBlocks(index, d) != []
    ensures Mention(DatabaseBlocks(index, d)[0].attributes, u) <==> u in UsesOf(FoundIds(index, d.subnetIds))
    ensures Mention(DatabaseBlocks(index, d)[1].attributes, u) <==>
            || u == OfResource(DatabaseBlocks(index, d)[0].At()) || u in UsesOf(FoundIds(index, d.securityGroupIds))
            || u == OfVariable(TerraformIdentifier(d.id) + "_username")
            || u == OfVariable(TerraformIdentifier(d.id) + "_password")
  {
    var name, groups := TerraformIdentifier(d.id), FilterMap(d.securityGroupIds, Finder(index));
    var group := Attribute("db_subnet_group_name", Reference(Locator("aws_db_subnet_group", name), "name"));
    var groupList := Attribute("vpc_security_group_ids", References(groups));
    var user := Attribute("username", VariableReference(name + "_username"));
    var password := Attribute("password", VariableReference(name + "_password"));
    MentionOne(DatabaseBlocks(index, d)[0].attributes[0], u);
    MentionOne(group, u);
    OptionalMention(groups != [], groupList, u);
    MentionTwo(user, password, u);
    MentionConcat([group], if groups != [] then [groupList] else [], u);
    MentionConcat([group] + (if groups != [] then [groupList] else []), [user, password], u);
  }

  lemma DatabaseUses(index: Index, d: Database, u: Use)
    requires Mentions(DatabaseBlocks(index, d), u)
    ensures || FromBlocks(DatabaseBlocks(index, d), u) || FromIds(index, DatabaseIds(d), u)
            || u == OfVariable(TerraformIdentifier(d.id) + "_username")
            || u == OfVariable(TerraformIdentifier(d.id) + "_password")
  {
    DatabaseBlockUses(index, d, u);
    ListUses(index, d.subnetIds, u);
    ListUses(index, d.securityGroupIds, u);
    if FromIds(index, Ids(d.subnetIds), u) {
      FromMore(index, Ids(d.subnetIds), DatabaseIds(d), u);
    } else if FromIds(index, Ids(d.securityGroupIds), u) {
      FromMore(index, Ids(d.securityGroupIds), DatabaseIds(d), u);
    } else if u.OfResource? {
      assert DatabaseBlocks(index, d)[0] in DatabaseBlocks(index, d);
    }
  }

  // Load balancers.

  lemma TargetUse(index: Index, groupName: string, id: string, u: Use)
    requires TargetBlock(index, groupName, id).Some?
    ensures BlockMentions(TargetBlock(index, groupName, id).value, u)
            <==> u == OfResource(Locator("aws_lb_target_group", groupName)) || u == OfResource(index[id])
  {
    var b := TargetBlock(index, groupName, id).value;
    MentionTwo(b.attributes[0], b.attributes[1], u);
  }

  lemma TargetsUse(index: Index, ids: seq<string>, groupName: string, u: Use)
    requires Mentions(FilterMap(ids, TargetMaker(index, groupName)), u)
    ensures u == OfResource(Locator("aws_lb_target_group", groupName)) || FromIds(index, Ids(ids), u)
  {
    var t :| t in FilterMap(ids, TargetMaker(index, groupName)) && BlockMentions(t, u);
    FilterMapMember(ids, TargetMaker(index, groupName), t);
    var id :| id in ids && TargetMaker(index, groupName)(id) == Some(t);
    TargetUse(index, groupName, id, u);
    assert id in Ids(ids);
  }

  lemma TargetIdUsed(index: Index, ids: seq<string>, groupName: string, id: string)
    requires id in ids && id in index
    ensures Mentions(FilterMap(ids, TargetMaker(index, groupName)), OfResource(index[id]))
  {
    var t := TargetBlock(index, groupName, id).value;
    assert TargetMaker(index, groupName)(id) == Some(t);
    FilterMapMember(ids, TargetMaker(index, groupName), t);
    TargetUse(index, groupName, id, OfResource(index[id]));
  }

  /** The balancer, its network, one of these blocks, or a target. */
  predicate BalancerUse(index: Index, b: LoadBalancer, network: Locator, blocks: seq<Block>, u: Use) {
    || u == OfResource(Locator("aws_lb", TerraformIdentifier(b.id))) || u == OfResource(network)
    || FromBlocks(blocks, u) || FromIds(index, Ids(b.targetComputeIds), u)
  }

  lemma ListenerItselfUses(index: Index, b: LoadBalancer, network: Locator, k: nat, u: Use)
    ensures BlockMentions(ListenerBlocks(index, b, network, k)[0], u) <==> u == OfResource(network)
    ensures BlockMentions(ListenerBlocks(index, b, network, k)[1], u) <==>
            || u == OfResource(Locator("aws_lb", TerraformIdentifier(b.id)))
            || u == OfResource(ListenerBlocks(index, b, network, k)[0].At())
  {
    var blocks := ListenerBlocks(index, b, network, k);
    MentionTwo(blocks[0].attributes[0], blocks[0].attributes[1], u);
    MentionOne(blocks[1].attributes[0], u);
    MentionOne(blocks[1].blocks[0].attributes[0], u);
    assert blocks[1].blocks[0] in blocks[1].blocks;
  }

  lemma ListenerUses(index: Index, b: LoadBalancer, network: Locator, k: nat, u: Use)
    requires Mentions(ListenerBlocks(index, b, network, k), u)
    ensures BalancerUse(index, b, network, ListenerBlocks(index, b, network, k), u)
  {
    var groupName := GroupName(TerraformIdentifier(b.id), k);
    var blocks := ListenerBlocks(index, b, network, k);
    var targets := FilterMap(b.targetComputeIds, TargetMaker(index, groupName));
    MentionsConcat([blocks[0], blocks[1]], targets, u);
    assert blocks == [blocks[0], blocks[1]] + targets && blocks[0] in blocks;
    if Mentions(targets, u) {
      TargetsUse(index, b.targetComputeIds, groupName, u);
    } else {
      ListenerItselfUses(index, b, network, k, u);
    }
  }

  lemma UseAmongMore(index: Index, b: LoadBalancer, network: Locator, some: seq<Block>, all: seq<Block>, u: Use)
    requires BalancerUse(index, b, network, some, u) && forall x <- some :: x in all
    ensures BalancerUse(index, b, network, all, u)
  {
  }

  lemma {:induction false} AllListenersUse(index: Index, b: LoadBalancer, network: Locator, count: nat, u: Use)
    requires Mentions(AllListenerBlocks(index, b, Some(network), count), u)
    ensures count > 0 && BalancerUse(index, b, network, AllListenerBlocks(index, b, Some(network), count), u)
  {
    var all := AllListenerBlocks(index, b, Some(network), count);
    var front, own := AllListenerBlocks(index, b, Some(network), count - 1), ListenerBlocks(index, b, network, count - 1);
    MentionsConcat(front, own, u);
    if Mentions(own, u) {
      ListenerUses(index, b, network, count - 1, u);
      UseAmongMore(index, b, network, own, all, u);
    } else {
      AllListenersUse(index, b, network, count - 1, u);
      UseAmongMore(index, b, network, front, all, u);
    }
  }

  lemma BalancerAttributesUse(index: Index, b: LoadBalancer, u: Use)
    ensures Mention(BalancerAttributes(index, b), u)
            <==> FromIds(index, Ids(b.subnetIds), u) || (b.isApplication && FromIds(index, Ids(b.securityGroupIds), u))
  {
    ListUses(index, b.subnetIds, u);
    ListUses(index, b.securityGroupIds, u);
    FoundIff(index, b.securityGroupIds);
    var attributes := BalancerAttributes(index, b);
    assert attributes[0] in attributes;
    if |attributes| > 1 {
      assert attributes[1] in attributes;
    }
  }

  lemma BalancerUses(index: Index, b: LoadBalancer, u: Use)
    requires Mentions(BalancerBlocks(index, b), u)
    ensures FromBlocks(BalancerBlocks(index, b), u) || FromIds(index, BalancerIds(index, b), u)
  {
    var balancer, network := BalancerBlocks(index, b)[0], FindGiven(index, b.networkId);
    var listeners := AllListenerBlocks(index, b, network, if network.None? then 0 else b.listeners);
    MentionsConcat([balancer], listeners, u);
    assert balancer in [balancer];
    if Mentions(listeners, u) {
      AllListenersUse(index, b, network.value, b.listeners, u);
      if FromIds(index, Ids(b.targetComputeIds), u) {
        FromMore(index, Ids(b.targetComputeIds), BalancerIds(index, b), u);
      } else {
        assert b.networkId.value in BalancerIds(index, b);
      }
    } else {
      BalancerAttributesUse(index, b, u);
      if FromIds(index, Ids(b.subnetIds), u) {
        FromMore(index, Ids(b.subnetIds), BalancerIds(index, b), u);
      } else {
        FromMore(index, Ids(b.securityGroupIds), BalancerIds(index, b), u);
      }
    }
  }

  // ---------- Any resource ----------

  /** Whatever the blocks of a resource stand on is one of them, the address of an id it uses, a
      variable it asks for, a data source, or its image expression. */
  ghost predicate IsAccounted(infra: Infrastructure, index: Index, r: CloudResource, u: Use) {
    || FromBlocks(Blocks(infra, index, r), u)
    || FromIds(index, UsedIds(infra, index, r), u)
    || (u.OfVariable? && u.name in Variables(infra, index, r))
    || (u.OfData? && IsData(u.kind, u.name))
    || (r.OfCompute? && LooksLikeReference(r.instance.image) && u in UsesOf(Verbatim(r.instance.image.value)))
  }

  lemma UsesAccounted(infra: Infrastructure, index: Index, r: CloudResource, u: Use)
    requires Mentions(Blocks(infra, index, r), u)
    ensures IsAccounted(infra, index, r, u)
  {
    match r {
      case OfNetwork(n) => NetworkUses(n, u);
      case OfSubnet(s) => SubnetUses(infra, index, s, u);
      case OfTable(t) => TableUses(index, t, u);
      case OfGateway(g) => GatewayUses(infra, index, g, u);
      case OfGroup(g) => GroupUses(index, g, u);
      case OfCompute(c) => InstanceUses(index, c, u);
      case OfDatabase(d) => DatabaseUses(index, d, u);
      case OfBalancer(b) => BalancerUses(index, b, u);
    }
  }

  lemma FirstDeclared(blocks: seq<Block>, a: Locator)
    requires blocks != [] && (blocks[0].At() == a || (|blocks| > 1 && blocks[1].At() == a))
    ensures Declared(blocks, a)
  {
    assert blocks[0] in blocks;
    if |blocks| > 1 {
      assert blocks[1] in blocks;
    }
  }

  /** An emitted resource has a block at its own address. */
  lemma OwnBlock(infra: Infrastructure, index: Index, r: CloudResource)
    requires Emitted(index, r)
    ensures Declared(Blocks(infra, index, r), r.At())
  {
    EmittedIff(infra, index, r);
    FirstDeclared(Blocks(infra, index, r), r.At());
  }

  lemma {:induction false} InMainFrom(infra: Infrastructure, index: Index, resources: seq<CloudResource>, b: Block)
    returns (r: CloudResource)
    requires b in MainOf(infra, index, resources)
    ensures r in resources && b in Blocks(infra, index, r)
  {
    var front, last := resources[..|resources| - 1], resources[|resources| - 1];
    if b in MainOf(infra, index, front) {
      r := InMainFrom(infra, index, front, b);
    } else {
      r := last;
    }
  }

  lemma {:induction false} InMainWhen(infra: Infrastructure, index: Index, resources: seq<CloudResource>, r: CloudResource,
                                      b: Block)
    requires r in resources && b in Blocks(infra, index, r)
    ensures b in MainOf(infra, index, resources)
  {
    var front, last := resources[..|resources| - 1], resources[|resources| - 1];
    if r in front {
      InMainWhen(infra, index, front, r, b);
    } else {
      assert r == last;
    }
  }

  lemma {:induction false} InOutputs(infra: Infrastructure, index: Index, resources: seq<CloudResource>, k: string)
    requires k in OutputsOf(infra, index, resources)
    ensures exists r <- resources ::
              k in Outputs(infra, index, r) && Outputs(infra, index, r)[k] == OutputsOf(infra, index, resources)[k]
  {
    var front, last := resources[..|resources| - 1], resources[|resources| - 1];
    if k in Outputs(infra, index, last) {
      assert last in resources;
    } else {
      InOutputs(infra, index, front, k);
      var r :| r in front && k in Outputs(infra, index, r)
               && Outputs(infra, index, r)[k] == OutputsOf(infra, index, front)[k];
      assert r in resources;
    }
  }

  lemma {:induction false} InVariables(infra: Infrastructure, index: Index, resources: seq<CloudResource>,
                                       r: CloudResource, v: string)
    requires r in resources && v in Variables(infra, index, r)
    ensures v in VariablesOf(infra, index, resources)
  {
    var front, last := resources[..|resources| - 1], resources[|resources| - 1];
    if r in front {
      InVariables(infra, index, front, r, v);
    } else {
      assert r == last;
    }
  }

  lemma {:induction false} IndexMeans(resources: seq<CloudResource>, id: string)
    ensures id in IndexOf(resources) <==> exists r <- resources :: r.Id() == id
    ensures id in IndexOf(resources) ==> exists r <- resources :: r.Id() == id && r.At() == IndexOf(resources)[id]
  {
    if resources != [] {
      var front, last := resources[..|resources| - 1], resources[|resources| - 1];
      IndexMeans(front, id);
      assert last in resources && forall r <- front :: r in resources;
      assert forall r <- resources :: r in front || r == last;
    }
  }

  /** Networks come first, then subnets, gateways, route tables, security groups, instances, databases
      and load balancers. */
  function Turn(r: CloudResource): nat {
    match r
    case OfNetwork(_) => 0
    case OfSubnet(_) => 1
    case OfGateway(_) => 2
    case OfTable(_) => 3
    case OfGroup(_) => 4
    case OfCompute(_) => 5
    case OfDatabase(_) => 6
    case OfBalancer(_) => 7
  }

  predicate InTurn(resources: seq<CloudResource>, low: nat, high: nat) {
    && (forall k | 0 <= k < |resources| :: low <= Turn(resources[k]) <= high)
    && (forall j, k | 0 <= j < k < |resources| :: Turn(resources[j]) <= Turn(resources[k]))
  }

  lemma TurnsConcat(a: seq<CloudResource>, b: seq<CloudResource>, low: nat, middle: nat, high: nat)
    requires InTurn(a, low, middle) && InTurn(b, middle + 1, high) && low <= middle < high
    ensures InTurn(a + b, low, high)
  {
    var all := a + b;
    forall k | 0 <= k < |all| ensures low <= Turn(all[k]) <= high && (k < |a| <==> Turn(all[k]) <= middle) {
      if k < |a| {
        assert all[k] == a[k];
      } else {
        assert all[k] == b[k - |a|];
      }
    }
    forall j, k | 0 <= j < k < |all| ensures Turn(all[j]) <= Turn(all[k]) {
      if k < |a| {
        assert all[j] == a[j] && all[k] == a[k];
      } else if j >= |a| {
        assert all[j] == b[j - |a|] && all[k] == b[k - |a|];
      }
    }
  }

  lemma EmittedInTurn(infra: Infrastructure)
    ensures InTurn(EmissionOrder(infra), 0, 7)
  {
    var first := Networks(infra) + Subnets(infra);
    var second := first + Gateways(infra);
    var third := second + Tables(infra);
    var fourth := third + Groups(infra);
    var fifth := fourth + Instances(infra);
    TurnsConcat(Networks(infra), Subnets(infra), 0, 0, 1);
    TurnsConcat(first, Gateways(infra), 0, 1, 2);
    TurnsConcat(second, Tables(infra), 0, 2, 3);
    TurnsConcat(third, Groups(infra), 0, 3, 4);
    TurnsConcat(fourth, Instances(infra), 0, 4, 5);
    TurnsConcat(fifth, Databases(infra), 0, 5, 6);
    TurnsConcat(fifth + Databases(infra), Balancers(infra), 0, 6, 7);
  }

  lemma SameResources(infra: Infrastructure, r: CloudResource)
    ensures r in Resources(infra) <==> r in EmissionOrder(infra)
  {
  }

  predicate Spells(resources: seq<CloudResource>, ids: seq<string>) {
    |resources| == |ids| && forall k | 0 <= k < |ids| :: resources[k].Id() == ids[k]
  }

  function FrontCount(infra: Infrastructure): nat {
    |infra.networks| + |infra.subnets| + |infra.routeTables| + |infra.gateways|
  }

  lemma FrontIdAt(infra: Infrastructure, p: nat)
    requires p < FrontCount(infra)
    ensures p < |Resources(infra)| && p < |infra.ResourceIds()| && Resources(infra)[p].Id() == infra.ResourceIds()[p]
  {
  }

  lemma BackIdAt(infra: Infrastructure, p: nat)
    requires FrontCount(infra) <= p < |infra.ResourceIds()|
    ensures p < |Resources(infra)| && Resources(infra)[p].Id() == infra.ResourceIds()[p]
  {
  }

  lemma SameCount(infra: Infrastructure)
    ensures |Resources(infra)| == |infra.ResourceIds()|
  {
  }

  /** The ids of all resources, in the same order. */
  lemma SpellsAll(infra: Infrastructure)
    ensures Spells(Resources(infra), infra.ResourceIds())
  {
    SameCount(infra);
    forall p | 0 <= p < |infra.ResourceIds()| ensures Resources(infra)[p].Id() == infra.ResourceIds()[p] {
      if p < FrontCount(infra) {
        FrontIdAt(infra, p);
      } else {
        BackIdAt(infra, p);
      }
    }
  }

  predicate IsPart(infra: Infrastructure, r: CloudResource) {
    match r
    case OfNetwork(n) => n in infra.networks
    case OfSubnet(s) => s in infra.subnets
    case OfTable(t) => t in infra.routeTables
    case OfGateway(g) => g in infra.gateways
    case OfCompute(c) => c in infra.compute
    case OfDatabase(d) => d in infra.databases
    case OfBalancer(b) => b in infra.loadBalancers
    case OfGroup(g) => g in infra.securityGroups
  }

  lemma ResourceIsPart(infra: Infrastructure, r: CloudResource)
    requires r in Resources(infra)
    ensures IsPart(infra, r)
  {
    assert r in Networks(infra) ==> IsPart(infra, r);
    assert r in Subnets(infra) ==> IsPart(infra, r);
    assert r in Tables(infra) ==> IsPart(infra, r);
    assert r in Gateways(infra) ==> IsPart(infra, r);
    assert r in Instances(infra) ==> IsPart(infra, r);
    assert r in Databases(infra) ==> IsPart(infra, r);
    assert r in Balancers(infra) ==> IsPart(infra, r);
    assert r in Groups(infra) ==> IsPart(infra, r);
  }

  lemma PartIsListed(infra: Infrastructure, r: CloudResource)
    requires IsPart(infra, r)
    ensures r in Resources(infra)
  {
    match r
    case OfNetwork(n) => assert r in Networks(infra);
    case OfSubnet(s) => assert r in Subnets(infra);
    case OfTable(t) => assert r in Tables(infra);
    case OfGateway(g) => assert r in Gateways(infra);
    case OfCompute(c) => assert r in Instances(infra);
    case OfDatabase(d) => assert r in Databases(infra);
    case OfBalancer(b) => assert r in Balancers(infra);
    case OfGroup(g) => assert r in Groups(infra);
  }

  function TheIndex(infra: Infrastructure): Index {
    IndexOf(Resources(infra))
  }

  lemma NetworkIndexed(infra: Infrastructure, n: VirtualNetwork)
    requires n in infra.networks
    ensures n.id in TheIndex(infra)
  {
    assert OfNetwork(n) in Networks(infra);
    assert OfNetwork(n) in Resources(infra);
    IndexMeans(Resources(infra), n.id);
  }

  lemma SubnetIndexed(infra: Infrastructure, s: Subnet)
    requires s in infra.subnets
    ensures s.id in TheIndex(infra)
  {
    assert OfSubnet(s) in Subnets(infra);
    assert OfSubnet(s) in Resources(infra);
    IndexMeans(Resources(infra), s.id);
  }

  // ---------- Well scoped when nothing is dropped ----------

  predicate IsEmitted(infra: Infrastructure, r: CloudResource) {
    r in Resources(infra) && Emitted(TheIndex(infra), r)
  }

  /** No emitted resource uses the id of one that is dropped. */
  predicate NoneDangling(infra: Infrastructure) {
    forall r <- Resources(infra), s <- Resources(infra) ::
      IsEmitted(infra, r) && s.Id() in UsedIds(infra, TheIndex(infra), r) ==> IsEmitted(infra, s)
  }

  predicate HasBlockAt(infra: Infrastructure, a: Locator) {
    exists r <- Resources(infra) :: Declared(Blocks(infra, TheIndex(infra), r), a)
  }

  predicate IsAskedFor(infra: Infrastructure, variable: string) {
    exists r <- Resources(infra) :: variable in Variables(infra, TheIndex(infra), r)
  }

  /** Some resource becomes a block at the address, some resource asks for the variable, or data.tf
      has the data source. */
  predicate Provided(infra: Infrastructure, u: Use) {
    match u
    case OfResource(a) => HasBlockAt(infra, a)
    case OfVariable(n) => n == REGION || IsAskedFor(infra, n)
    case OfData(kind, name) => IsData(kind, name)
    case OfText(_) => false
  }

  predicate HasExpression(infra: Infrastructure, c: ComputeInstance) {
    IsEmitted(infra, OfCompute(c)) && LooksLikeReference(c.image)
  }

  /** Every image of an emitted instance that is printed as an expression is a dotted name. */
  predicate ImagesReadable(infra: Infrastructure) {
    forall c <- infra.compute :: HasExpression(infra, c) ==> Meaning(c.image.value).Some?
  }

  /** Every such name stands for something the project declares. */
  predicate ImagesResolve(infra: Infrastructure) {
    forall c <- infra.compute :: HasExpression(infra, c) ==>
      Meaning(c.image.value).Some? && Provided(infra, Meaning(c.image.value).value)
  }

  lemma DeclaredInMain(infra: Infrastructure, r: CloudResource, a: Locator)
    requires r in Resources(infra) && Declared(Blocks(infra, TheIndex(infra), r), a)
    ensures Declared(ProjectOf(infra).main, a)
  {
    SameResources(infra, r);
    var b :| b in Blocks(infra, TheIndex(infra), r) && b.At() == a;
    InMainWhen(infra, TheIndex(infra), EmissionOrder(infra), r, b);
  }

  lemma ResourceDeclared(infra: Infrastructure, r: CloudResource)
    requires IsEmitted(infra, r)
    ensures Declared(ProjectOf(infra).main, r.At())
  {
    OwnBlock(infra, TheIndex(infra), r);
    DeclaredInMain(infra, r, r.At());
  }

  lemma IdDeclared(infra: Infrastructure, r: CloudResource, u: Use)
    requires NoneDangling(infra) && IsEmitted(infra, r)
    requires FromIds(TheIndex(infra), UsedIds(infra, TheIndex(infra), r), u)
    ensures UseDeclared(ProjectOf(infra), u)
  {
    var index := TheIndex(infra);
    var id :| id in UsedIds(infra, index, r) && id in index && u == OfResource(index[id]);
    IndexMeans(Resources(infra), id);
    var s :| s in Resources(infra) && s.Id() == id && s.At() == index[id];
    ResourceDeclared(infra, s);
  }

  lemma {:induction false} VariableFrom(infra: Infrastructure, index: Index, resources: seq<CloudResource>, v: string)
    returns (r: CloudResource)
    requires v in VariablesOf(infra, index, resources)
    ensures r in resources && v in Variables(infra, index, r)
  {
    var front, last := resources[..|resources| - 1], resources[|resources| - 1];
    if v in Variables(infra, index, last) {
      r := last;
    } else {
      r := VariableFrom(infra, index, front, v);
    }
  }

  lemma AddressDeclaredIff(infra: Infrastructure, a: Locator)
    ensures Declared(ProjectOf(infra).main, a) <==> HasBlockAt(infra, a)
  {
    var index := TheIndex(infra);
    if r :| r in Resources(infra) && Declared(Blocks(infra, index, r), a) {
      DeclaredInMain(infra, r, a);
    }
    if b :| b in ProjectOf(infra).main && b.At() == a {
      var r := InMainFrom(infra, index, EmissionOrder(infra), b);
      SameResources(infra, r);
    }
  }

  lemma VariableDeclaredIff(infra: Infrastructure, n: string)
    ensures n in ProjectOf(infra).variables <==> n == REGION || IsAskedFor(infra, n)
  {
    var index := TheIndex(infra);
    if r :| r in Resources(infra) && n in Variables(infra, index, r) {
      SameResources(infra, r);
      InVariables(infra, index, EmissionOrder(infra), r, n);
    }
    if n in VariablesOf(infra, index, EmissionOrder(infra)) {
      var r := VariableFrom(infra, index, EmissionOrder(infra), n);
      SameResources(infra, r);
    }
  }

  /** What some resource provides is what the project declares. */
  lemma ProvidedIsDeclared(infra: Infrastructure, u: Use)
    ensures Provided(infra, u) <==> UseDeclared(ProjectOf(infra), u)
  {
    if u.OfResource? {
      AddressDeclaredIff(infra, u.address);
    } else if u.OfVariable? {
      VariableDeclaredIff(infra, u.name);
    }
  }

  lemma MainUseDeclared(infra: Infrastructure, r: CloudResource, u: Use)
    requires NoneDangling(infra) && ImagesResolve(infra) && r in Resources(infra)
    requires Mentions(Blocks(infra, TheIndex(infra), r), u)
    ensures UseDeclared(ProjectOf(infra), u)
  {
    var index := TheIndex(infra);
    UsesAccounted(infra, index, r, u);
    EmittedIff(infra, index, r);
    if FromBlocks(Blocks(infra, index, r), u) {
      DeclaredInMain(infra, r, u.address);
    } else if FromIds(index, UsedIds(infra, index, r), u) {
      IdDeclared(infra, r, u);
    } else if u.OfVariable? && u.name in Variables(infra, index, r) {
      SameResources(infra, r);
      InVariables(infra, index, EmissionOrder(infra), r, u.name);
    } else if u.OfData? && IsData(u.kind, u.name) {
    } else {
      ExpressionDeclared(infra, r.instance, u);
    }
  }

  lemma ExpressionDeclared(infra: Infrastructure, c: ComputeInstance, u: Use)
    requires ImagesResolve(infra) && HasExpression(infra, c) && u in UsesOf(Verbatim(c.image.value))
    ensures UseDeclared(ProjectOf(infra), u)
  {
    ComputeListed(infra, c);
    ExpressionProvided(infra, c);
    MeaningUsed(c.image.value, u);
    ProvidedIsDeclared(infra, u);
  }

  lemma ComputeListed(infra: Infrastructure, c: ComputeInstance)
    requires HasExpression(infra, c)
    ensures c in infra.compute
  {
    ResourceIsPart(infra, OfCompute(c));
  }

  lemma MeaningUsed(text: string, u: Use)
    requires Meaning(text).Some?
    ensures u in UsesOf(Verbatim(text)) <==> u == Meaning(text).value
  {
  }

  lemma ExpressionProvided(infra: Infrastructure, c: ComputeInstance)
    requires ImagesResolve(infra) && HasExpression(infra, c) && c in infra.compute
    ensures Meaning(c.image.value).Some? && Provided(infra, Meaning(c.image.value).value)
  {
  }

  lemma OutputUse(infra: Infrastructure, index: Index, r: CloudResource, k: string, u: Use)
    requires k in Outputs(infra, index, r) && u in UsesOf(Outputs(infra, index, r)[k])
    ensures Emitted(index, r) && u == OfResource(r.At())
  {
    EmittedIff(infra, index, r);
  }

  lemma OutputDeclared(infra: Infrastructure, k: string, u: Use)
    requires k in ProjectOf(infra).outputs && u in UsesOf(ProjectOf(infra).outputs[k])
    ensures UseDeclared(ProjectOf(infra), u)
  {
    var index := TheIndex(infra);
    InOutputs(infra, index, EmissionOrder(infra), k);
    var r :| r in EmissionOrder(infra) && k in Outputs(infra, index, r)
             && Outputs(infra, index, r)[k] == ProjectOf(infra).outputs[k];
    SameResources(infra, r);
    OutputUse(infra, index, r, k, u);
    ResourceDeclared(infra, r);
  }

  /** With nothing dangling and every image expression resolved, everything is declared. */
  lemma ScopedWhenComplete(infra: Infrastructure)
    requires NoneDangling(infra) && ImagesResolve(infra)
    ensures WellScoped(ProjectOf(infra))
  {
    var index := TheIndex(infra);
    forall u | Mentions(ProjectOf(infra).main, u) ensures UseDeclared(ProjectOf(infra), u) {
      var b :| b in ProjectOf(infra).main && BlockMentions(b, u);
      var r := InMainFrom(infra, index, EmissionOrder(infra), b);
      SameResources(infra, r);
      MainUseDeclared(infra, r, u);
    }
    forall k, u | k in ProjectOf(infra).outputs && u in UsesOf(ProjectOf(infra).outputs[k])
      ensures UseDeclared(ProjectOf(infra), u)
    {
      OutputDeclared(infra, k, u);
    }
  }

  // ---------- Everything used is mentioned ----------

  lemma AssociationIdUsed(index: Index, ids: seq<string>, name: string, id: string)
    requires id in ids && id in index
    ensures Mentions(FilterMap(ids, AssociationMaker(index, name)), OfResource(index[id]))
  {
    var b := Association(index, name, id).value;
    assert AssociationMaker(index, name)(id) == Some(b);
    FilterMapMember(ids, AssociationMaker(index, name), b);
    AssociationUse(index, name, id, OfResource(index[id]));
  }

  lemma TableIdUsed(index: Index, t: RouteTable, id: string)
    requires t.networkId in index && id in TableIds(t) && id in index
    ensures Mentions(TableBlocks(index, t), OfResource(index[id]))
  {
    var u, table := OfResource(index[id]), TableBlocks(index, t)[0];
    var associations := FilterMap(t.associatedSubnetIds, AssociationMaker(index, TerraformIdentifier(t.id)));
    MentionsConcat([table], associations, u);
    assert table in [table];
    if id == t.networkId {
      MentionOne(table.attributes[0], u);
    } else if id in Targets(t.routes) {
      TargetUsed(index, t.routes, id);
    } else {
      AssociationIdUsed(index, t.associatedSubnetIds, TerraformIdentifier(t.id), id);
    }
  }

  lemma TransitIdUsed(infra: Infrastructure, index: Index, g: Gateway, id: string)
    requires g.kind.Transit? && id in GatewayIds(infra, index, g) && id in index
    ensures Mentions(GatewayBlocks(infra, index, g), OfResource(index[id]))
  {
    var name := TerraformIdentifier(g.id);
    var n :| n in g.peerNetworkIds && id in AttachmentIds(infra, index, n);
    FoundIff(index, SubnetIdsOf(infra, n));
    var b := Attachment(infra, index, name, n).value;
    assert AttachmentMaker(infra, index, name)(n) == Some(b);
    FilterMapMember(g.peerNetworkIds, AttachmentMaker(infra, index, name), b);
    AttachmentUses(infra, index, name, n, OfResource(index[id]));
    assert b in GatewayBlocks(infra, index, g);
  }

  lemma GatewayIdUsed(infra: Infrastructure, index: Index, g: Gateway, id: string)
    requires Emitted(index, OfGateway(g)) && id in GatewayIds(infra, index, g) && id in index
    ensures Mentions(GatewayBlocks(infra, index, g), OfResource(index[id]))
  {
    var u, blocks := OfResource(index[id]), GatewayBlocks(infra, index, g);
    match g.kind {
      case Transit => TransitIdUsed(infra, index, g, id);
      case Internet =>
        MentionOne(blocks[0].attributes[0], u);
        assert blocks[0] in blocks;
      case Nat =>
        MentionTwo(blocks[1].attributes[0], blocks[1].attributes[1], u);
        assert blocks[1] in blocks;
      case Peering =>
        MentionThree(blocks[0].attributes[0], blocks[0].attributes[1], blocks[0].attributes[2], u);
        assert blocks[0] in blocks;
      case _ =>
    }
  }

  lemma GroupIdUsed(index: Index, g: SecurityGroup, id: string)
    requires g.networkId in index && id in GroupIds(g) && id in index
    ensures Mentions(GroupBlocks(index, g), OfResource(index[id]))
  {
    var block := GroupBlocks(index, g)[0];
    assert block in GroupBlocks(index, g);
    if id == g.networkId {
      MentionTwo(block.attributes[0], block.attributes[1], OfResource(index[id]));
    } else {
      RuleIdUsed(index, g.rules, id);
    }
  }

  lemma {:induction false} NicIdUsed(index: Index, name: string, c: ComputeInstance, nics: seq<NetworkInterface>, id: string)
    requires id in SecondarySubnets(c, nics) && id in index
    ensures Mentions(AllNicBlocks(index, name, PrimarySubnet(c), nics), OfResource(index[id]))
  {
    var front, last := nics[..|nics| - 1], nics[|nics| - 1];
    var own := NicBlocks(index, name, PrimarySubnet(c), last);
    MentionsConcat(AllNicBlocks(index, name, PrimarySubnet(c), front), own, OfResource(index[id]));
    if id in SecondarySubnets(c, front) {
      NicIdUsed(index, name, c, front, id);
    } else {
      assert IsSecondary(c, last) && last.subnetId == id;
      MentionTwo(own[0].attributes[0], own[0].attributes[1], OfResource(index[id]));
      assert own[0] in own;
    }
  }

  lemma InstanceIdUsed(index: Index, c: ComputeInstance, id: string)
    requires FindGiven(index, PrimarySubnet(c)).Some? && id in InstanceIds(c) && id in index
    ensures Mentions(InstanceBlocks(index, c), OfResource(index[id]))
  {
    var u, name, instance := OfResource(index[id]), TerraformIdentifier(c.id), InstanceBlocks(index, c)[0];
    MentionsConcat([instance], AllNicBlocks(index, name, PrimarySubnet(c), c.interfaces), u);
    assert instance in [instance];
    if id in SecondarySubnets(c, c.interfaces) {
      NicIdUsed(index, name, c, c.interfaces, id);
    } else {
      InstanceAttributesUse(index, c, index[PrimarySubnet(c).value], u);
      ListUses(index, c.securityGroupIds, u);
    }
  }

  lemma DatabaseIdUsed(index: Index, d: Database, id: string)
    requires DatabaseBlocks(index, d) != [] && id in DatabaseIds(d) && id in index
    ensures Mentions(DatabaseBlocks(index, d), OfResource(index[id]))
  {
    var blocks := DatabaseBlocks(index, d);
    DatabaseBlockUses(index, d, OfResource(index[id]));
    ListUses(index, d.subnetIds, OfResource(index[id]));
    ListUses(index, d.securityGroupIds, OfResource(index[id]));
    assert blocks[0] in blocks && blocks[1] in blocks;
  }

  lemma ListenerIdUsed(index: Index, b: LoadBalancer, network: Locator, k: nat, id: string)
    requires id in index && (id in b.targetComputeIds || network == index[id])
    ensures Mentions(ListenerBlocks(index, b, network, k), OfResource(index[id]))
  {
    var u, blocks := OfResource(index[id]), ListenerBlocks(index, b, network, k);
    var groupName := GroupName(TerraformIdentifier(b.id), k);
    var targets := FilterMap(b.targetComputeIds, TargetMaker(index, groupName));
    MentionsConcat(blocks[..2], targets, u);
    assert blocks == blocks[..2] + targets;
    if id in b.targetComputeIds {
      TargetIdUsed(index, b.targetComputeIds, groupName, id);
    } else {
      MentionTwo(blocks[0].attributes[0], blocks[0].attributes[1], u);
      assert blocks[0] in blocks;
    }
  }

  lemma BalancerIdUsed(index: Index, b: LoadBalancer, id: string)
    requires BalancerBlocks(index, b) != [] && id in BalancerIds(index, b) && id in index
    ensures Mentions(BalancerBlocks(index, b), OfResource(index[id]))
  {
    var u, balancer, network := OfResource(index[id]), BalancerBlocks(index, b)[0], FindGiven(index, b.networkId);
    var listeners := AllListenerBlocks(index, b, network, if network.None? then 0 else b.listeners);
    MentionsConcat([balancer], listeners, u);
    assert balancer in [balancer];
    BalancerAttributesUse(index, b, u);
    if id in Ids(b.subnetIds) {
      assert FromIds(index, Ids(b.subnetIds), u);
    } else if b.isApplication && id in Ids(b.securityGroupIds) {
      assert FromIds(index, Ids(b.securityGroupIds), u);
    } else {
      ListenerIdUsed(index, b, network.value, b.listeners - 1, id);
      MentionsConcat(AllListenerBlocks(index, b, network, b.listeners - 1),
                     ListenerBlocks(index, b, network.value, b.listeners - 1), u);
    }
  }

  /** An emitted resource refers to every known id it uses. */
  lemma IdMentioned(infra: Infrastructure, index: Index, r: CloudResource, id: string)
    requires Emitted(index, r) && id in UsedIds(infra, index, r) && id in index
    ensures Mentions(Blocks(infra, index, r), OfResource(index[id]))
  {
    EmittedIff(infra, index, r);
    match r {
      case OfSubnet(s) =>
        var b := SubnetBlocks(infra, index, s)[0];
        MentionThree(b.attributes[0], b.attributes[1], b.attributes[2], OfResource(index[id]));
        assert b in SubnetBlocks(infra, index, s);
      case OfTable(t) => TableIdUsed(index, t, id);
      case OfGateway(g) => GatewayIdUsed(infra, index, g, id);
      case OfGroup(g) => GroupIdUsed(index, g, id);
      case OfCompute(c) => InstanceIdUsed(index, c, id);
      case OfDatabase(d) => DatabaseIdUsed(index, d, id);
      case OfBalancer(b) => BalancerIdUsed(index, b, id);
      case OfNetwork(_) =>
    }
  }
}
