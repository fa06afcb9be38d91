/**
 The AWS mapping layer as a compiler: each cloud resource becomes Terraform blocks that refer to
 one another by address. Addresses are indexed before anything is emitted. Attributes that carry
 tags, names and sizes are left out of the blocks.
 */
module Terraform {
  import opened Addressing
  import opened CloudModel
  import opened Decimal
  import opened Lists
  import opened Text
  import opened Wrappers

  // ---------- Identifiers ----------

  predicate IsIdentifierChar(c: char) {
    'a' <= c <= 'z' || 'A' <= c <= 'Z' || IsDigit(c) || c == '_'
  }

  /** White space at the ends goes with the underscores it collapses to. */
  function TerraformIdentifier(value: string): string {
    var cleaned := Lower(Trim(Collapse(value, IsIdentifierChar, '_'), '_'));
    var named := if cleaned == "" then "resource" else cleaned;
    if IsDigit(named[0]) then "r_" + named else named
  }

  lemma LowerKeeps(s: string)
    requires forall c <- s :: IsIdentifierChar(c)
    ensures forall c <- Lower(s) :: IsIdentifierChar(c) && !('A' <= c <= 'Z')
  {
    forall i | 0 <= i < |s| ensures IsIdentifierChar(Lower(s)[i]) && !('A' <= Lower(s)[i] <= 'Z') {
      assert s[i] in s;
    }
  }

  lemma CleanedText(value: string)
    ensures forall c <- Trim(Collapse(value, IsIdentifierChar, '_'), '_') :: IsIdentifierChar(c)
    ensures Trim(Collapse(value, IsIdentifierChar, '_'), '_') != "" ==>
              Trim(Collapse(value, IsIdentifierChar, '_'), '_')[0] != '_'
  {
    CollapseKeeps(value, IsIdentifierChar, '_');
    TrimEnds(Collapse(value, IsIdentifierChar, '_'), '_');
  }

  /** Identifiers start with a letter and hold letters, digits and underscores. */
  lemma IdentifierIsLegal(value: string)
    ensures TerraformIdentifier(value) != ""
    ensures 'a' <= TerraformIdentifier(value)[0] <= 'z'
    ensures forall c <- TerraformIdentifier(value) :: 'a' <= c <= 'z' || '0' <= c <= '9' || c == '_'
  {
    var trimmed := Trim(Collapse(value, IsIdentifierChar, '_'), '_');
    CleanedText(value);
    LowerKeeps(trimmed);
    if trimmed != "" {
      assert trimmed[0] in trimmed;
    }
  }

  /** What is left between the underscores is put in lower case; a leading digit gets a prefix, and
      a text of which nothing is left is called `resource`. */
  lemma IdentifierIs(value: string, before: string, middle: string, after: string)
    requires Collapse(value, IsIdentifierChar, '_') == before + (middle + after)
    requires AllOf(before, '_') && AllOf(after, '_')
    requires middle != "" ==> middle[0] != '_' && middle[|middle| - 1] != '_'
    ensures middle == "" ==> TerraformIdentifier(value) == "resource"
    ensures middle != "" && '0' <= middle[0] <= '9' ==> TerraformIdentifier(value) == "r_" + Lower(middle)
    ensures middle != "" && !('0' <= middle[0] <= '9') ==> TerraformIdentifier(value) == Lower(middle)
  {
    if middle == "" {
      TrimNothing(before + (middle + after), '_');
    } else {
      TrimIs(before, middle, after, '_');
    }
  }

  predicate IsPlain(c: char) {
    'a' <= c <= 'z' || 'A' <= c <= 'Z' || '0' <= c <= '9' || c == '_'
  }

  /** A name of letters, digits and underscores, with a letter first and no underscore last, only
      loses its case. */
  lemma IdentifierKeeps(name: string)
    requires name != "" && IsPlain(name[0]) && !('0' <= name[0] <= '9') && name[0] != '_' && name[|name| - 1] != '_'
    requires forall i | 0 <= i < |name| :: IsPlain(name[i])
    ensures TerraformIdentifier(name) == Lower(name)
  {
    PlainCollapses(name);
    IdentifierIs(name, "", name, "");
  }

  lemma PlainCollapses(name: string)
    requires forall i | 0 <= i < |name| :: IsPlain(name[i])
    ensures Collapse(name, IsIdentifierChar, '_') == "" + (name + "")
  {
    assert AllKept(name, IsIdentifierChar);
    CollapseWord(name, "", IsIdentifierChar, '_');
    assert name + "" == name;
  }

  // ---------- Blocks ----------

  /** `aws_vpc.r1_vpc`. */
  datatype Locator = Locator(kind: string, name: string)

  /** `Literal` is a text or number that is not modelled; `Zone` is an entry of the list of
      availability zones that data.tf asks for. */
  datatype Value =
    | Literal
    | Text(text: string)
    | Flag(on: bool)
    | Range(block: SubnetSpec)
    | Texts(texts: seq<string>)
    | Reference(address: Locator, attribute: string)
    | References(addresses: seq<Locator>)
    | Zone(index: nat)
    | DataReference(kind: string, name: string)
    | VariableReference(name: string)
    | Verbatim(expression: string)

  /** The texts between the dots. */
  function SplitDots(text: string): (parts: seq<string>)
    ensures parts != []
  {
    var i := FirstDot(text);
    if i == |text| then [text] else [text[..i]] + SplitDots(text[i + 1..])
  }

  function FirstDot(text: string): (i: nat)
    ensures i <= |text|
  {
    if text == "" || text[0] == '.' then 0 else 1 + FirstDot(text[1..])
  }

  /** A name in the configuration language. */
  predicate IsLabel(t: string) {
    t != "" && !IsDigit(t[0]) && t[0] != '-' && forall c <- t :: IsIdentifierChar(c) || c == '-'
  }

  /** Roots of expressions that name neither a resource nor a data source nor a variable. */
  const OTHER_ROOTS: set<string> := {"local", "module", "path", "terraform", "each", "count", "self"}

  /** What a dotted name stands on: `var.name`, `data.kind.name` or `kind.name`, each with attributes
      after it. Other expressions are not read. */
  function Meaning(text: string): Option<Use> {
    var parts := SplitDots(text);
    if |parts| < 2 || !(forall part <- parts :: IsLabel(part)) then None
    else if parts[0] == "var" then Some(OfVariable(parts[1]))
    else if parts[0] == "data" then if |parts| > 2 then Some(OfData(parts[1], parts[2])) else None
    else if parts[0] in OTHER_ROOTS then None
    else Some(OfResource(Locator(parts[0], parts[1])))
  }

  /** What an expression stands on. */
  datatype Use = OfResource(address: Locator) | OfData(kind: string, name: string) | OfVariable(name: string) | OfText(text: string)

  function UsesOf(v: Value): set<Use> {
    match v
    case Literal => {}
    case Text(_) => {}
    case Flag(_) => {}
    case Range(_) => {}
    case Texts(_) => {}
    case Zone(_) => {OfData("aws_availability_zones", "available")}
    case Reference(a, _) => {OfResource(a)}
    case References(addresses) => set a <- addresses :: OfResource(a)
    case DataReference(kind, name) => {OfData(kind, name)}
    case VariableReference(name) => {OfVariable(name)}
    case Verbatim(text) => {if Meaning(text).Some? then Meaning(text).value else OfText(text)}
  }

  datatype Attribute = Attribute(key: string, value: Value)

  /** A block inside a resource; the mappers nest one level. */
  datatype Nested = Nested(kind: string, attributes: seq<Attribute>)

  datatype Block = Block(kind: string, name: string, attributes: seq<Attribute>, blocks: seq<Nested>) {
    function At(): Locator {
      Locator(kind, name)
    }
  }

  predicate Mention(attributes: seq<Attribute>, u: Use) {
    exists a <- attributes :: u in UsesOf(a.value)
  }

  predicate BlockMentions(b: Block, u: Use) {
    Mention(b.attributes, u) || exists n <- b.blocks :: Mention(n.attributes, u)
  }

  predicate Mentions(blocks: seq<Block>, u: Use) {
    exists b <- blocks :: BlockMentions(b, u)
  }

  function Resource(kind: string, name: string, attributes: seq<Attribute>): Block {
    Block(kind, name, attributes, [])
  }

  // ---------- The index of addresses ----------

  datatype CloudResource =
    | OfNetwork(network: VirtualNetwork)
    | OfSubnet(subnet: Subnet)
    | OfTable(table: RouteTable)
    | OfGateway(gateway: Gateway)
    | OfCompute(instance: ComputeInstance)
    | OfDatabase(database: Database)
    | OfBalancer(balancer: LoadBalancer)
    | OfGroup(group: SecurityGroup)
  {
    function Id(): string {
      match this
      case OfNetwork(n) => n.id
      case OfSubnet(s) => s.id
      case OfTable(t) => t.id
      case OfGateway(g) => g.id
      case OfCompute(c) => c.id
      case OfDatabase(d) => d.id
      case OfBalancer(b) => b.id
      case OfGroup(g) => g.id
    }

    function TerraformType(): string {
      match this
      case OfNetwork(_) => "aws_vpc"
      case OfSubnet(_) => "aws_subnet"
      case OfTable(_) => "aws_route_table"
      case OfCompute(_) => "aws_instance"
      case OfDatabase(_) => "aws_db_instance"
      case OfBalancer(_) => "aws_lb"
      case OfGroup(_) => "aws_security_group"
      case OfGateway(g) =>
        match g.kind
        case Internet => "aws_internet_gateway"
        case Nat => "aws_nat_gateway"
        case Transit => "aws_ec2_transit_gateway"
        case Peering => "aws_vpc_peering_connection"
        case Vpn => "aws_vpn_gateway"
        case VirtualPrivate => "aws_vpn_gateway"
    }

    function Name(): string {
      TerraformIdentifier(Id())
    }

    function At(): Locator {
      Locator(TerraformType(), Name())
    }
  }

  function Networks(infra: Infrastructure): seq<CloudResource> {
    Each(infra.networks, n => OfNetwork(n))
  }

  function Subnets(infra: Infrastructure): seq<CloudResource> {
    Each(infra.subnets, s => OfSubnet(s))
  }

  function Tables(infra: Infrastructure): seq<CloudResource> {
    Each(infra.routeTables, t => OfTable(t))
  }

  function Gateways(infra: Infrastructure): seq<CloudResource> {
    Each(infra.gateways, g => OfGateway(g))
  }

  function Instances(infra: Infrastructure): seq<CloudResource> {
    Each(infra.compute, c => OfCompute(c))
  }

  function Databases(infra: Infrastructure): seq<CloudResource> {
    Each(infra.databases, d => OfDatabase(d))
  }

  function Balancers(infra: Infrastructure): seq<CloudResource> {
    Each(infra.loadBalancers, b => OfBalancer(b))
  }

  function Groups(infra: Infrastructure): seq<CloudResource> {
    Each(infra.securityGroups, g => OfGroup(g))
  }

  /** Every resource, in the order `all_resources` lists them. */
  function Resources(infra: Infrastructure): seq<CloudResource> {
    Networks(infra) + Subnets(infra) + Tables(infra) + Gateways(infra) + Instances(infra) + Databases(infra)
    + Balancers(infra) + Groups(infra)
  }

  /** Every resource, in the order of emission. */
  function EmissionOrder(infra: Infrastructure): seq<CloudResource> {
    Networks(infra) + Subnets(infra) + Gateways(infra) + Tables(infra) + Groups(infra) + Instances(infra)
    + Databases(infra) + Balancers(infra)
  }

  type Index = map<string, Locator>

  /** A dictionary filled in order keeps the last address of an id. */
  function IndexOf(resources: seq<CloudResource>): Index {
    if resources == [] then map[]
    else
      var last := resources[|resources| - 1];
      IndexOf(resources[..|resources| - 1])[last.Id() := last.At()]
  }

  lemma IndexStep(resources: seq<CloudResource>, k: nat)
    requires k < |resources|
    ensures IndexOf(resources[..k + 1]) == IndexOf(resources[..k])[resources[k].Id() := resources[k].At()]
  {
    assert resources[..k + 1][..k] == resources[..k];
  }

  // ---------- What each resource becomes ----------

  function Find(index: Index, id: string): Option<Locator> {
    if id in index then Some(index[id]) else None
  }

  /** An optional id that is missing or empty refers to nothing. */
  function FindGiven(index: Index, id: Option<string>): Option<Locator> {
    if id.Some? && id.value != "" then Find(index, id.value) else None
  }

  function Finder(index: Index): string -> Option<Locator> {
    id => Find(index, id)
  }

  function ById(address: Locator): Value {
    Reference(address, "id")
  }

  // Networks.

  function Secondary(name: string, cidrs: seq<SubnetSpec>): seq<Block> {
    if cidrs == [] then []
    else
      var last := |cidrs| - 1;
      Secondary(name, cidrs[..last])
      + [Resource("aws_vpc_ipv4_cidr_block_association", name + "_secondary_" + Digits(last),
                  [Attribute("vpc_id", ById(Locator("aws_vpc", name))), Attribute("cidr_block", Range(cidrs[last]))])]
  }

  function NetworkBlocks(n: VirtualNetwork): seq<Block> {
    var name := TerraformIdentifier(n.id);
    [Resource("aws_vpc", name, [Attribute("cidr_block", Range(n.cidr))])] + Secondary(name, n.secondaryCidrs)
  }

  function NetworkOutputs(n: VirtualNetwork): map<string, Value> {
    var name := TerraformIdentifier(n.id);
    map[name + "_id" := ById(Locator("aws_vpc", name))]
  }

  // Subnets.

  /** Where the first subnet of this id is, or the length of the list. */
  function FirstAt(subnets: seq<Subnet>, id: string): (k: nat)
    ensures k <= |subnets|
  {
    if subnets == [] || subnets[0].id == id then 0 else 1 + FirstAt(subnets[1..], id)
  }

  /** Subnets are spread over three zones by their place in their own network. */
  function ZoneIndex(infra: Infrastructure, s: Subnet): nat {
    var siblings := SubnetsOf(infra.subnets, s.networkId);
    var k := FirstAt(siblings, s.id);
    if k == |siblings| then 0 else k % 3
  }

  function SubnetBlocks(infra: Infrastructure, index: Index, s: Subnet): seq<Block> {
    var vpc := Find(index, s.networkId);
    if vpc.None? then []
    else
      [Resource("aws_subnet", TerraformIdentifier(s.id),
                [Attribute("vpc_id", ById(vpc.value)), Attribute("cidr_block", Range(s.cidr)),
                 Attribute("availability_zone",
                           if s.availabilityZone.Some? && s.availabilityZone.value != "" then Text(s.availabilityZone.value)
                           else Zone(ZoneIndex(infra, s)))])]
  }

  // Route tables.

  function RouteTargetArgument(terraformType: string): string {
    if terraformType == "aws_nat_gateway" then "nat_gateway_id"
    else if terraformType == "aws_ec2_transit_gateway" then "transit_gateway_id"
    else if terraformType == "aws_vpc_peering_connection" then "vpc_peering_connection_id"
    else if terraformType == "aws_instance" then "instance_id"
    else if terraformType == "aws_network_interface" then "network_interface_id"
    else "gateway_id"
  }

  function RouteBlock(index: Index, r: Route): Option<Nested> {
    var target := Find(index, r.targetRef);
    if target.None? then None
    else Some(Nested("route", [Attribute("cidr_block", Range(r.destination)),
                               Attribute(RouteTargetArgument(target.value.kind), ById(target.value))]))
  }

  function RouteMaker(index: Index): Route -> Option<Nested> {
    r => RouteBlock(index, r)
  }

  function Association(index: Index, name: string, subnetId: string): Option<Block> {
    var subnet := Find(index, subnetId);
    if subnet.None? then None
    else Some(Resource("aws_route_table_association", name + "_" + TerraformIdentifier(subnetId),
                       [Attribute("subnet_id", ById(subnet.value)),
                        Attribute("route_table_id", ById(Locator("aws_route_table", name)))]))
  }

  function AssociationMaker(index: Index, name: string): string -> Option<Block> {
    id => Association(index, name, id)
  }

  function TableBlocks(index: Index, t: RouteTable): seq<Block> {
    var name, vpc := TerraformIdentifier(t.id), Find(index, t.networkId);
    if vpc.None? then []
    else
      [Block("aws_route_table", name, [Attribute("vpc_id", ById(vpc.value))], FilterMap(t.routes, RouteMaker(index)))]
      + FilterMap(t.associatedSubnetIds, AssociationMaker(index, name))
  }

  // Gateways.

  function Attachment(infra: Infrastructure, index: Index, name: string, networkId: string): Option<Block> {
    var vpc := Find(index, networkId);
    var subnets := FilterMap(SubnetIdsOf(infra, networkId), Finder(index));
    if vpc.None? || subnets == [] then None
    else Some(Resource("aws_ec2_transit_gateway_vpc_attachment", name + "_" + TerraformIdentifier(networkId),
                       [Attribute("transit_gateway_id", ById(Locator("aws_ec2_transit_gateway", name))),
                        Attribute("vpc_id", ById(vpc.value)), Attribute("subnet_ids", References(subnets))]))
  }

  function SubnetIdsOf(infra: Infrastructure, networkId: string): seq<string> {
    Each(SubnetsOf(infra.subnets, networkId), (s: Subnet) => s.id)
  }

  function AttachmentMaker(infra: Infrastructure, index: Index, name: string): string -> Option<Block> {
    id => Attachment(infra, index, name, id)
  }

  function GatewayBlocks(infra: Infrastructure, index: Index, g: Gateway): seq<Block> {
    var name := TerraformIdentifier(g.id);
    match g.kind
    case Internet =>
      var vpc := FindGiven(index, g.networkId);
      if vpc.None? then []
      else [Resource("aws_internet_gateway", name, [Attribute("vpc_id", ById(vpc.value))])]
    case Nat =>
      var subnet := FindGiven(index, g.subnetId);
      if subnet.None? then []
      else
        [Resource("aws_eip", name + "_eip", [Attribute("domain", Text("vpc"))]),
         Resource("aws_nat_gateway", name, [Attribute("allocation_id", ById(Locator("aws_eip", name + "_eip"))),
                                            Attribute("subnet_id", ById(subnet.value))])]
    case Peering =>
      if |g.peerNetworkIds| != 2 then []
      else
        var left, right := Find(index, g.peerNetworkIds[0]), Find(index, g.peerNetworkIds[1]);
        if left.None? || right.None? then []
        else [Resource("aws_vpc_peering_connection", name,
                       [Attribute("vpc_id", ById(left.value)), Attribute("peer_vpc_id", ById(right.value)),
                        Attribute("auto_accept", Flag(true))])]
    case Transit =>
      [Resource("aws_ec2_transit_gateway", name, [Attribute("description", Literal)])]
      + FilterMap(g.peerNetworkIds, AttachmentMaker(infra, index, name))
    case Vpn => []
    case VirtualPrivate => []
  }

  // Security groups.

  function RuleBlock(index: Index, r: SecurityRule): Option<Nested> {
    var kind := if r.ingress then "ingress" else "egress";
    if r.sourceSecurityGroupId.Some? && r.sourceSecurityGroupId.value != "" then
      var peer := Find(index, r.sourceSecurityGroupId.value);
      if peer.None? then None
      else Some(Nested(kind, [Attribute("protocol", Literal), Attribute("security_groups", References([peer.value]))]))
    else if r.cidrBlocks != [] then
      Some(Nested(kind, [Attribute("protocol", Literal), Attribute("cidr_blocks", Texts(r.cidrBlocks))]))
    else None
  }

  function RuleMaker(index: Index): SecurityRule -> Option<Nested> {
    r => RuleBlock(index, r)
  }

  function GroupBlocks(index: Index, g: SecurityGroup): seq<Block> {
    var vpc := Find(index, g.networkId);
    if vpc.None? then []
    else [Block("aws_security_group", TerraformIdentifier(g.id),
                [Attribute("name", Literal), Attribute("vpc_id", ById(vpc.value))], FilterMap(g.rules, RuleMaker(index)))]
  }

  // Instances.

  /** A dotted text that is no image id is taken for a Terraform expression. */
  predicate LooksLikeReference(image: Option<string>) {
    image.Some? && image.value != "" && !("ami-" <= image.value) && '.' in image.value
  }

  function Image(image: Option<string>): Value {
    if LooksLikeReference(image) then Verbatim(image.value)
    else if image.Some? && image.value != "" then Text(image.value)
    else DataReference("aws_ami", "amazon_linux")
  }

  function PrimarySubnet(c: ComputeInstance): Option<string> {
    if c.subnetId.Some? && c.subnetId.value != "" then c.subnetId
    else if c.interfaces != [] then Some(c.interfaces[0].subnetId)
    else None
  }

  predicate HasKey(c: ComputeInstance) {
    c.keyName.Some? && c.keyName.value != ""
  }

  function InstanceAttributes(index: Index, c: ComputeInstance, subnet: Locator): seq<Attribute> {
    var groups := FilterMap(c.securityGroupIds, Finder(index));
    [Attribute("ami", Image(c.image)), Attribute("subnet_id", ById(subnet))]
    + (if groups != [] then [Attribute("vpc_security_group_ids", References(groups))] else [])
    + (if c.assignPublicIp then [Attribute("associate_public_ip_address", Flag(true))] else [])
    + (if c.isForwarder then [Attribute("source_dest_check", Flag(false))] else [])
    + [Attribute("key_name", if HasKey(c) then Text(c.keyName.value) else VariableReference("ssh_key_name"))]
  }

  /** A further interface: its block and its attachment. */
  function NicBlocks(index: Index, name: string, primary: Option<string>, nic: NetworkInterface): seq<Block> {
    var subnet := Find(index, nic.subnetId);
    var nicName := name + "_" + TerraformIdentifier(nic.id);
    if nic.primary || Some(nic.subnetId) == primary || subnet.None? then []
    else
      [Resource("aws_network_interface", nicName,
                [Attribute("subnet_id", ById(subnet.value)), Attribute("source_dest_check", Flag(nic.sourceDestCheck))]),
       Resource("aws_network_interface_attachment", nicName,
                [Attribute("instance_id", ById(Locator("aws_instance", name))),
                 Attribute("network_interface_id", ById(Locator("aws_network_interface", nicName)))])]
  }

  function AllNicBlocks(index: Index, name: string, primary: Option<string>, nics: seq<NetworkInterface>): seq<Block> {
    if nics == [] then []
    else AllNicBlocks(index, name, primary, nics[..|nics| - 1]) + NicBlocks(index, name, primary, nics[|nics| - 1])
  }

  function InstanceBlocks(index: Index, c: ComputeInstance): seq<Block> {
    var name, subnet := TerraformIdentifier(c.id), FindGiven(index, PrimarySubnet(c));
    if subnet.None? then []
    else [Resource("aws_instance", name, InstanceAttributes(index, c, subnet.value))]
         + AllNicBlocks(index, name, PrimarySubnet(c), c.interfaces)
  }

  function InstanceOutputs(c: ComputeInstance): map<string, Value> {
    var name := TerraformIdentifier(c.id);
    var private := map[name + "_private_ip" := Reference(Locator("aws_instance", name), "private_ip")];
    if c.assignPublicIp then private[name + "_public_ip" := Reference(Locator("aws_instance", name), "public_ip")]
    else private
  }

  // Databases.

  function DatabaseBlocks(index: Index, d: Database): seq<Block> {
    var name := TerraformIdentifier(d.id);
    var subnets, groups := FilterMap(d.subnetIds, Finder(index)), FilterMap(d.securityGroupIds, Finder(index));
    if |subnets| < 2 then []
    else
      [Resource("aws_db_subnet_group", name, [Attribute("subnet_ids", References(subnets))]),
       Resource("aws_db_instance", name,
                [Attribute("db_subnet_group_name", Reference(Locator("aws_db_subnet_group", name), "name"))]
                + (if groups != [] then [Attribute("vpc_security_group_ids", References(groups))] else [])
                + [Attribute("username", VariableReference(name + "_username")),
                   Attribute("password", VariableReference(name + "_password"))])]
  }

  function DatabaseOutputs(d: Database): map<string, Value> {
    var name := TerraformIdentifier(d.id);
    map[name + "_endpoint" := Reference(Locator("aws_db_instance", name), "endpoint")]
  }

  // Load balancers.

  function GroupName(name: string, listener: nat): string {
    name + "_tg_" + Digits(listener)
  }

  function TargetBlock(index: Index, groupName: string, targetId: string): Option<Block> {
    var target := Find(index, targetId);
    if target.None? then None
    else Some(Resource("aws_lb_target_group_attachment", groupName + "_" + TerraformIdentifier(targetId),
                       [Attribute("target_group_arn", Reference(Locator("aws_lb_target_group", groupName), "arn")),
                        Attribute("target_id", ById(target.value))]))
  }

  function TargetMaker(index: Index, groupName: string): string -> Option<Block> {
    id => TargetBlock(index, groupName, id)
  }

  function ListenerBlocks(index: Index, b: LoadBalancer, network: Locator, listener: nat): seq<Block> {
    var name := TerraformIdentifier(b.id);
    var groupName := GroupName(name, listener);
    [Resource("aws_lb_target_group", groupName, [Attribute("port", Literal), Attribute("vpc_id", ById(network))]),
     Block("aws_lb_listener", name + "_listener_" + Digits(listener),
           [Attribute("load_balancer_arn", Reference(Locator("aws_lb", name), "arn"))],
           [Nested("default_action",
                   [Attribute("target_group_arn", Reference(Locator("aws_lb_target_group", groupName), "arn"))])])]
    + FilterMap(b.targetComputeIds, TargetMaker(index, groupName))
  }

  /** None without a network for the target groups. */
  function AllListenerBlocks(index: Index, b: LoadBalancer, network: Option<Locator>, count: nat): seq<Block>
    requires network.None? ==> count == 0
  {
    if count == 0 then []
    else AllListenerBlocks(index, b, network, count - 1) + ListenerBlocks(index, b, network.value, count - 1)
  }

  function BalancerAttributes(index: Index, b: LoadBalancer): seq<Attribute> {
    var groups := FilterMap(b.securityGroupIds, Finder(index));
    [Attribute("subnets", References(FilterMap(b.subnetIds, Finder(index))))]
    + if groups != [] && b.isApplication then [Attribute("security_groups", References(groups))] else []
  }

  function BalancerBlocks(index: Index, b: LoadBalancer): seq<Block> {
    var network := FindGiven(index, b.networkId);
    if FilterMap(b.subnetIds, Finder(index)) == [] then []
    else
      [Resource("aws_lb", TerraformIdentifier(b.id), BalancerAttributes(index, b))]
      + AllListenerBlocks(index, b, network, if network.None? then 0 else b.listeners)
  }

  function BalancerOutputs(b: LoadBalancer): map<string, Value> {
    var name := TerraformIdentifier(b.id);
    map[name + "_dns_name" := Reference(Locator("aws_lb", name), "dns_name")]
  }

  // Any of them.

  function Blocks(infra: Infrastructure, index: Index, r: CloudResource): seq<Block> {
    match r
    case OfNetwork(n) => NetworkBlocks(n)
    case OfSubnet(s) => SubnetBlocks(infra, index, s)
    case OfTable(t) => TableBlocks(index, t)
    case OfGateway(g) => GatewayBlocks(infra, index, g)
    case OfGroup(g) => GroupBlocks(index, g)
    case OfCompute(c) => InstanceBlocks(index, c)
    case OfDatabase(d) => DatabaseBlocks(index, d)
    case OfBalancer(b) => BalancerBlocks(index, b)
  }

  function Outputs(infra: Infrastructure, index: Index, r: CloudResource): map<string, Value> {
    if Blocks(infra, index, r) == [] then map[]
    else
      match r
      case OfNetwork(n) => NetworkOutputs(n)
      case OfCompute(c) => InstanceOutputs(c)
      case OfDatabase(d) => DatabaseOutputs(d)
      case OfBalancer(b) => BalancerOutputs(b)
      case _ => map[]
  }

  function Variables(infra: Infrastructure, index: Index, r: CloudResource): set<string> {
    if Blocks(infra, index, r) == [] then {}
    else
      match r
      case OfCompute(c) => if HasKey(c) then {} else {"ssh_key_name"}
      case OfDatabase(d) => {TerraformIdentifier(d.id) + "_username", TerraformIdentifier(d.id) + "_password"}
      case _ => {}
  }
}
