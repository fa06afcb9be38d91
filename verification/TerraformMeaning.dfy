/**
 What the generated blocks say, argument by argument: under which name each block refers to which
 resource, and what else it gives. Stated over the fields of the resources and the index alone, both
 ways, for every kind of resource.
 */
module TerraformMeaning {
  import opened Addressing
  import opened CloudModel
  import opened Decimal
  import opened Lists
  import opened Terraform
  import opened TerraformMapping
  import opened TerraformScoping
  import opened Wrappers

  // ---------- What a block says ----------

  /** A list of references says each of them. */
  datatype Fact = Points(address: Locator, attribute: string) | Is(value: Value)

  /** The block at an address, itself or in a block inside it, gives an argument. */
  datatype Argument = Argument(at: Locator, place: string, key: string, fact: Fact)

  predicate Gives(v: Value, f: Fact) {
    match v
    case Reference(a, attribute) => f == Points(a, attribute)
    case References(addresses) => f.Points? && f.attribute == "id" && f.address in addresses
    case _ => f == Is(v)
  }

  predicate ListSays(attributes: seq<Attribute>, key: string, f: Fact) {
    exists a <- attributes :: a.key == key && Gives(a.value, f)
  }

  predicate InsideSays(blocks: seq<Nested>, place: string, key: string, f: Fact) {
    exists n <- blocks :: n.kind == place && ListSays(n.attributes, key, f)
  }

  const TOP := ""

  predicate BlockSays(b: Block, x: Argument) {
    && b.At() == x.at
    && ((x.place == TOP && ListSays(b.attributes, x.key, x.fact)) || InsideSays(b.blocks, x.place, x.key, x.fact))
  }

  predicate Says(blocks: seq<Block>, x: Argument) {
    exists b <- blocks :: BlockSays(b, x)
  }

  lemma SaysConcat(a: seq<Block>, b: seq<Block>, x: Argument)
    ensures Says(a + b, x) <==> Says(a, x) || Says(b, x)
  {
  }

  lemma SaysOne(b: Block, x: Argument)
    ensures Says([b], x) <==> BlockSays(b, x)
  {
    assert b in [b];
  }

  lemma ListConcat(a: seq<Attribute>, b: seq<Attribute>, key: string, f: Fact)
    ensures ListSays(a + b, key, f) <==> ListSays(a, key, f) || ListSays(b, key, f)
  {
  }

  lemma ListOne(a: Attribute, key: string, f: Fact)
    ensures ListSays([a], key, f) <==> a.key == key && Gives(a.value, f)
  {
    assert a in [a];
  }

  lemma ListTwo(a: Attribute, b: Attribute, key: string, f: Fact)
    ensures ListSays([a, b], key, f) <==> (a.key == key && Gives(a.value, f)) || (b.key == key && Gives(b.value, f))
  {
    assert a in [a, b] && b in [a, b];
  }

  lemma ListThree(a: Attribute, b: Attribute, c: Attribute, key: string, f: Fact)
    ensures ListSays([a, b, c], key, f) <==>
            (a.key == key && Gives(a.value, f)) || (b.key == key && Gives(b.value, f)) || (c.key == key && Gives(c.value, f))
  {
    assert a in [a, b, c] && b in [a, b, c] && c in [a, b, c];
  }

  lemma Plain(kind: string, name: string, attributes: seq<Attribute>, x: Argument)
    ensures Says([Resource(kind, name, attributes)], x) <==>
            x.at == Locator(kind, name) && x.place == TOP && ListSays(attributes, x.key, x.fact)
  {
    SaysOne(Resource(kind, name, attributes), x);
  }

  // ---------- Facts about ids ----------

  /** The fact refers to the resource of this id. */
  predicate Names(index: Index, id: string, f: Fact) {
    id in index && f == Points(index[id], "id")
  }

  predicate NamesGiven(index: Index, id: Option<string>, f: Fact) {
    id.Some? && id.value != "" && Names(index, id.value, f)
  }

  predicate NamesOne(index: Index, ids: seq<string>, f: Fact) {
    exists id <- ids :: Names(index, id, f)
  }

  /** A list of found addresses refers to each id that is known. */
  lemma FoundGives(index: Index, ids: seq<string>, f: Fact)
    ensures Gives(References(FilterMap(ids, Finder(index))), f) <==> NamesOne(index, ids, f)
  {
    if f.Points? {
      FilterMapMember(ids, Finder(index), f.address);
      if id :| id in ids && Finder(index)(id) == Some(f.address) {
        assert f.attribute == "id" ==> Names(index, id, f);
      }
      if id :| id in ids && Names(index, id, f) {
        assert Finder(index)(id) == Some(f.address);
      }
    }
  }

  lemma NoneFound(index: Index, ids: seq<string>, f: Fact)
    requires FilterMap(ids, Finder(index)) == []
    ensures !NamesOne(index, ids, f)
  {
    FoundGives(index, ids, f);
  }

  // ---------- Networks ----------

  predicate SecondaryMeans(name: string, cidrs: seq<SubnetSpec>, k: nat, x: Argument)
    requires k < |cidrs|
  {
    && x.at == Locator("aws_vpc_ipv4_cidr_block_association", name + "_secondary_" + Digits(k))
    && x.place == TOP
    && (|| (x.key == "vpc_id" && x.fact == Points(Locator("aws_vpc", name), "id"))
        || (x.key == "cidr_block" && x.fact == Is(Range(cidrs[k]))))
  }

  predicate SomeSecondaryMeans(name: string, cidrs: seq<SubnetSpec>, x: Argument) {
    exists k | 0 <= k < |cidrs| :: SecondaryMeans(name, cidrs, k, x)
  }

  predicate NetworkMeans(n: VirtualNetwork, x: Argument) {
    var name := TerraformIdentifier(n.id);
    || x == Argument(Locator("aws_vpc", name), TOP, "cidr_block", Is(Range(n.cidr)))
    || SomeSecondaryMeans(name, n.secondaryCidrs, x)
  }

  lemma {:induction false} SecondarySays(name: string, cidrs: seq<SubnetSpec>, x: Argument)
    ensures Says(Secondary(name, cidrs), x) <==> SomeSecondaryMeans(name, cidrs, x)
  {
    if cidrs != [] {
      var last := |cidrs| - 1;
      var front := cidrs[..last];
      SecondarySays(name, front, x);
      var attributes := [Attribute("vpc_id", ById(Locator("aws_vpc", name))), Attribute("cidr_block", Range(cidrs[last]))];
      var own := Resource("aws_vpc_ipv4_cidr_block_association", name + "_secondary_" + Digits(last), attributes);
      SaysConcat(Secondary(name, front), [own], x);
      Plain(own.kind, own.name, attributes, x);
      ListTwo(attributes[0], attributes[1], x.key, x.fact);
      assert Says([own], x) <==> SecondaryMeans(name, cidrs, last, x);
      OneMoreSecondary(name, cidrs, x);
    }
  }

  lemma OneMoreSecondary(name: string, cidrs: seq<SubnetSpec>, x: Argument)
    requires cidrs != []
    ensures SomeSecondaryMeans(name, cidrs, x)
            <==> SomeSecondaryMeans(name, cidrs[..|cidrs| - 1], x) || SecondaryMeans(name, cidrs, |cidrs| - 1, x)
  {
    var front := cidrs[..|cidrs| - 1];
    if k :| 0 <= k < |front| && SecondaryMeans(name, front, k, x) {
      assert SecondaryMeans(name, cidrs, k, x);
    }
    if k :| 0 <= k < |cidrs| && SecondaryMeans(name, cidrs, k, x) {
      assert k < |front| ==> SecondaryMeans(name, front, k, x);
    }
  }

  lemma NetworkSays(n: VirtualNetwork, x: Argument)
    ensures Says(NetworkBlocks(n), x) <==> NetworkMeans(n, x)
  {
    var name, own := TerraformIdentifier(n.id), [Attribute("cidr_block", Range(n.cidr))];
    SaysConcat([Resource("aws_vpc", name, own)], Secondary(name, n.secondaryCidrs), x);
    Plain("aws_vpc", name, own, x);
    ListOne(own[0], x.key, x.fact);
    SecondarySays(name, n.secondaryCidrs, x);
  }

  // ---------- Subnets ----------

  predicate IsAt(subnets: seq<Subnet>, i: nat, networkId: string, id: string) {
    i < |subnets| && subnets[i].networkId == networkId && subnets[i].id == id
  }

  predicate IsFirstAt(subnets: seq<Subnet>, i: nat, networkId: string, id: string) {
    IsAt(subnets, i, networkId, id) && forall j | 0 <= j < i :: !IsAt(subnets, j, networkId, id)
  }

  /** The zones are taken in turn by the subnets of a network. */
  predicate IsZone(subnets: seq<Subnet>, networkId: string, id: string, zone: nat) {
    || (exists i | 0 <= i < |subnets| :: IsFirstAt(subnets, i, networkId, id) && zone == |Before(subnets, i, networkId)| % 3)
    || (zone == 0 && forall i | 0 <= i < |subnets| :: !IsAt(subnets, i, networkId, id))
  }

  lemma {:induction false} FirstAtIs(subnets: seq<Subnet>, id: string, k: nat)
    requires k < |subnets| && subnets[k].id == id && forall j | 0 <= j < k :: subnets[j].id != id
    ensures FirstAt(subnets, id) == k
  {
    if k > 0 {
      FirstAtIs(subnets[1..], id, k - 1);
    }
  }

  lemma {:induction false} FirstAtNone(subnets: seq<Subnet>, id: string)
    requires forall s <- subnets :: s.id != id
    ensures FirstAt(subnets, id) == |subnets|
  {
    if subnets != [] {
      FirstAtNone(subnets[1..], id);
    }
  }

  lemma ZoneOfFirst(infra: Infrastructure, s: Subnet, i: nat)
    requires IsFirstAt(infra.subnets, i, s.networkId, s.id)
    ensures ZoneIndex(infra, s) == |Before(infra.subnets, i, s.networkId)| % 3
  {
    var siblings := SubnetsOf(infra.subnets, s.networkId);
    var earlier := SubnetsOf(infra.subnets[..i], s.networkId);
    SiblingAt(infra.subnets, i, s.networkId);
    forall j | 0 <= j < |earlier| ensures siblings[j].id != s.id {
      assert siblings[j] == earlier[j] && earlier[j] in infra.subnets[..i];
      var at :| 0 <= at < i && infra.subnets[at] == earlier[j];
      assert !IsAt(infra.subnets, at, s.networkId, s.id);
    }
    assert siblings[|earlier|] == infra.subnets[i];
    FirstAtIs(siblings, s.id, |earlier|);
  }

  lemma {:induction false} FirstPlace(subnets: seq<Subnet>, i: nat, networkId: string, id: string) returns (first: nat)
    requires IsAt(subnets, i, networkId, id)
    ensures first < |subnets| && IsFirstAt(subnets, first, networkId, id)
    decreases i
  {
    if j :| 0 <= j < i && IsAt(subnets, j, networkId, id) {
      first := FirstPlace(subnets, j, networkId, id);
    } else {
      first := i;
    }
  }

  lemma ZoneIs(infra: Infrastructure, s: Subnet, zone: nat)
    ensures ZoneIndex(infra, s) == zone <==> IsZone(infra.subnets, s.networkId, s.id, zone)
  {
    if i :| 0 <= i < |infra.subnets| && IsAt(infra.subnets, i, s.networkId, s.id) {
      var first := FirstPlace(infra.subnets, i, s.networkId, s.id);
      ZoneOfFirst(infra, s, first);
      assert forall k | 0 <= k < |infra.subnets| && IsFirstAt(infra.subnets, k, s.networkId, s.id) :: k == first;
    } else {
      forall sibling | sibling in SubnetsOf(infra.subnets, s.networkId) ensures sibling.id != s.id {
        var at :| 0 <= at < |infra.subnets| && infra.subnets[at] == sibling;
        assert !IsAt(infra.subnets, at, s.networkId, s.id);
      }
      FirstAtNone(SubnetsOf(infra.subnets, s.networkId), s.id);
    }
  }

  predicate SubnetMeans(infra: Infrastructure, index: Index, s: Subnet, x: Argument) {
    && s.networkId in index
    && x.at == Locator("aws_subnet", TerraformIdentifier(s.id)) && x.place == TOP
    && (|| (x.key == "vpc_id" && Names(index, s.networkId, x.fact))
        || (x.key == "cidr_block" && x.fact == Is(Range(s.cidr)))
        || (x.key == "availability_zone" && ZoneMeans(infra, s, x.fact)))
  }

  predicate ZoneMeans(infra: Infrastructure, s: Subnet, f: Fact) {
    if s.availabilityZone == None || s.availabilityZone == Some("") then
      f.Is? && f.value.Zone? && IsZone(infra.subnets, s.networkId, s.id, f.value.index)
    else f == Is(Text(s.availabilityZone.value))
  }

  lemma SubnetSays(infra: Infrastructure, index: Index, s: Subnet, x: Argument)
    ensures Says(SubnetBlocks(infra, index, s), x) <==> SubnetMeans(infra, index, s, x)
  {
    if s.networkId in index {
      var b := SubnetBlocks(infra, index, s)[0];
      Plain("aws_subnet", b.name, b.attributes, x);
      ListThree(b.attributes[0], b.attributes[1], b.attributes[2], x.key, x.fact);
      if x.fact.Is? && x.fact.value.Zone? {
        ZoneIs(infra, s, x.fact.value.index);
      }
    }
  }

  // ---------- Route tables ----------

  /** The argument of a route for each type of resource it can go to. */
  predicate RoutesUnder(kind: string, key: string) {
    || (kind == "aws_nat_gateway" && key == "nat_gateway_id")
    || (kind == "aws_ec2_transit_gateway" && key == "transit_gateway_id")
    || (kind == "aws_vpc_peering_connection" && key == "vpc_peering_connection_id")
    || (kind == "aws_instance" && key == "instance_id")
    || (kind == "aws_network_interface" && key == "network_interface_id")
    || (key == "gateway_id" && kind != "aws_nat_gateway" && kind != "aws_ec2_transit_gateway"
        && kind != "aws_vpc_peering_connection" && kind != "aws_instance" && kind != "aws_network_interface")
  }

  predicate RouteMeans(index: Index, r: Route, key: string, f: Fact) {
    && r.targetRef in index
    && (|| (key == "cidr_block" && f == Is(Range(r.destination)))
        || (RoutesUnder(index[r.targetRef].kind, key) && Names(index, r.targetRef, f)))
  }

  predicate AssociationMeans(index: Index, name: string, id: string, x: Argument) {
    && id in index
    && x.at == Locator("aws_route_table_association", name + "_" + TerraformIdentifier(id)) && x.place == TOP
    && (|| (x.key == "subnet_id" && Names(index, id, x.fact))
        || (x.key == "route_table_id" && x.fact == Points(Locator("aws_route_table", name), "id")))
  }

  predicate TableMeans(index: Index, t: RouteTable, x: Argument) {
    var name := TerraformIdentifier(t.id);
    && t.networkId in index
    && (|| (x.at == Locator("aws_route_table", name) && x.place == TOP && x.key == "vpc_id"
            && Names(index, t.networkId, x.fact))
        || (x.at == Locator("aws_route_table", name) && x.place == "route"
            && exists r <- t.routes :: RouteMeans(index, r, x.key, x.fact))
        || exists id <- t.associatedSubnetIds :: AssociationMeans(index, name, id, x))
  }

  lemma ArgumentOfRoute(kind: string, key: string)
    ensures RouteTargetArgument(kind) == key <==> RoutesUnder(kind, key)
  {
    assert kind == "aws_nat_gateway" ==> kind[4] == 'n' && kind[5] == 'a';
    assert kind == "aws_ec2_transit_gateway" ==> kind[4] == 'e';
    assert kind == "aws_vpc_peering_connection" ==> kind[4] == 'v';
    assert kind == "aws_instance" ==> kind[4] == 'i';
    assert kind == "aws_network_interface" ==> kind[4] == 'n' && kind[5] == 'e';
  }

  lemma RouteSays(index: Index, r: Route, key: string, f: Fact)
    requires RouteBlock(index, r).Some?
    ensures ListSays(RouteBlock(index, r).value.attributes, key, f) <==> RouteMeans(index, r, key, f)
  {
    var n := RouteBlock(index, r).value;
    ListTwo(n.attributes[0], n.attributes[1], key, f);
    ArgumentOfRoute(index[r.targetRef].kind, key);
  }

  lemma RoutesSay(index: Index, routes: seq<Route>, place: string, key: string, f: Fact)
    ensures InsideSays(FilterMap(routes, RouteMaker(index)), place, key, f)
            <==> place == "route" && exists r <- routes :: RouteMeans(index, r, key, f)
  {
    var made := FilterMap(routes, RouteMaker(index));
    if n :| n in made && n.kind == place && ListSays(n.attributes, key, f) {
      FilterMapMember(routes, RouteMaker(index), n);
      var r :| r in routes && RouteMaker(index)(r) == Some(n);
      RouteSays(index, r, key, f);
    }
    if r :| place == "route" && r in routes && RouteMeans(index, r, key, f) {
      var n := RouteBlock(index, r).value;
      assert RouteMaker(index)(r) == Some(n);
      FilterMapMember(routes, RouteMaker(index), n);
      RouteSays(index, r, key, f);
    }
  }

  lemma AssociationSays(index: Index, name: string, id: string, b: Block, x: Argument)
    requires Association(index, name, id) == Some(b)
    ensures BlockSays(b, x) <==> AssociationMeans(index, name, id, x)
  {
    ListTwo(b.attributes[0], b.attributes[1], x.key, x.fact);
  }

  lemma AssociationsSay(index: Index, ids: seq<string>, name: string, x: Argument)
    ensures Says(FilterMap(ids, AssociationMaker(index, name)), x)
            <==> exists id <- ids :: AssociationMeans(index, name, id, x)
  {
    if b :| b in FilterMap(ids, AssociationMaker(index, name)) && BlockSays(b, x) {
      FilterMapMember(ids, AssociationMaker(index, name), b);
      var id :| id in ids && AssociationMaker(index, name)(id) == Some(b);
      AssociationSays(index, name, id, b, x);
    }
    if id :| id in ids && AssociationMeans(index, name, id, x) {
      var b := Association(index, name, id).value;
      assert AssociationMaker(index, name)(id) == Some(b);
      FilterMapMember(ids, AssociationMaker(index, name), b);
      AssociationSays(index, name, id, b, x);
    }
  }

  lemma TableSays(index: Index, t: RouteTable, x: Argument)
    ensures Says(TableBlocks(index, t), x) <==> TableMeans(index, t, x)
  {
    if t.networkId in index {
      var name, table := TerraformIdentifier(t.id), TableBlocks(index, t)[0];
      SaysConcat([table], FilterMap(t.associatedSubnetIds, AssociationMaker(index, name)), x);
      SaysOne(table, x);
      ListOne(table.attributes[0], x.key, x.fact);
      RoutesSay(index, t.routes, x.place, x.key, x.fact);
      AssociationsSay(index, t.associatedSubnetIds, name, x);
    }
  }

  // ---------- Gateways ----------

  predicate AttachmentMeans(infra: Infrastructure, index: Index, name: string, networkId: string, x: Argument) {
    && networkId in index && SomeSubnetKnown(infra, index, networkId)
    && x.at == Locator("aws_ec2_transit_gateway_vpc_attachment", name + "_" + TerraformIdentifier(networkId))
    && x.place == TOP
    && (|| (x.key == "transit_gateway_id" && x.fact == Points(Locator("aws_ec2_transit_gateway", name), "id"))
        || (x.key == "vpc_id" && Names(index, networkId, x.fact))
        || (x.key == "subnet_ids" && exists s <- infra.subnets :: s.networkId == networkId && Names(index, s.id, x.fact)))
  }

  predicate SomeSubnetKnown(infra: Infrastructure, index: Index, networkId: string) {
    exists s <- infra.subnets :: s.networkId == networkId && s.id in index
  }

  predicate GatewayMeans(infra: Infrastructure, index: Index, g: Gateway, x: Argument) {
    var name := TerraformIdentifier(g.id);
    match g.kind
    case Internet =>
      && x.at == Locator("aws_internet_gateway", name) && x.place == TOP
      && x.key == "vpc_id" && NamesGiven(index, g.networkId, x.fact)
    case Nat =>
      && g.subnetId.Some? && g.subnetId.value != "" && g.subnetId.value in index
      && x.place == TOP
      && (|| (x.at == Locator("aws_eip", name + "_eip") && x.key == "domain" && x.fact == Is(Text("vpc")))
          || (x.at == Locator("aws_nat_gateway", name) && x.key == "allocation_id"
              && x.fact == Points(Locator("aws_eip", name + "_eip"), "id"))
          || (x.at == Locator("aws_nat_gateway", name) && x.key == "subnet_id" && Names(index, g.subnetId.value, x.fact)))
    case Peering =>
      && |g.peerNetworkIds| == 2 && g.peerNetworkIds[0] in index && g.peerNetworkIds[1] in index
      && x.at == Locator("aws_vpc_peering_connection", name) && x.place == TOP
      && (|| (x.key == "vpc_id" && Names(index, g.peerNetworkIds[0], x.fact))
          || (x.key == "peer_vpc_id" && Names(index, g.peerNetworkIds[1], x.fact))
          || (x.key == "auto_accept" && x.fact == Is(Flag(true))))
    case Transit =>
      || x == Argument(Locator("aws_ec2_transit_gateway", name), TOP, "description", Is(Literal))
      || exists n <- g.peerNetworkIds :: AttachmentMeans(infra, index, name, n, x)
    case _ => false
  }

  lemma SubnetIdListed(infra: Infrastructure, networkId: string, id: string)
    ensures id in SubnetIdsOf(infra, networkId) <==> exists s <- infra.subnets :: s.networkId == networkId && s.id == id
  {
    var own := SubnetsOf(infra.subnets, networkId);
    if id in SubnetIdsOf(infra, networkId) {
      var k :| 0 <= k < |own| && own[k].id == id;
      assert own[k] in infra.subnets;
    }
    if s :| s in infra.subnets && s.networkId == networkId && s.id == id {
      var k :| 0 <= k < |own| && own[k] == s;
      assert SubnetIdsOf(infra, networkId)[k] == id;
    }
  }

  lemma SubnetsNamed(infra: Infrastructure, index: Index, networkId: string, f: Fact)
    ensures NamesOne(index, SubnetIdsOf(infra, networkId), f)
            <==> exists s <- infra.subnets :: s.networkId == networkId && Names(index, s.id, f)
  {
    if id :| id in SubnetIdsOf(infra, networkId) && Names(index, id, f) {
      SubnetIdListed(infra, networkId, id);
    }
    if s :| s in infra.subnets && s.networkId == networkId && Names(index, s.id, f) {
      SubnetIdListed(infra, networkId, s.id);
    }
  }

  lemma SubnetKnownIff(infra: Infrastructure, index: Index, networkId: string)
    ensures FilterMap(SubnetIdsOf(infra, networkId), Finder(index)) != [] <==> SomeSubnetKnown(infra, index, networkId)
  {
    FoundIff(index, SubnetIdsOf(infra, networkId));
    if id :| id in SubnetIdsOf(infra, networkId) && id in index {
      SubnetIdListed(infra, networkId, id);
    }
    if s :| s in infra.subnets && s.networkId == networkId && s.id in index {
      SubnetIdListed(infra, networkId, s.id);
    }
  }

  lemma AttachmentSays(infra: Infrastructure, index: Index, name: string, networkId: string, b: Block, x: Argument)
    requires Attachment(infra, index, name, networkId) == Some(b)
    ensures BlockSays(b, x) <==> AttachmentMeans(infra, index, name, networkId, x)
  {
    ListThree(b.attributes[0], b.attributes[1], b.attributes[2], x.key, x.fact);
    FoundGives(index, SubnetIdsOf(infra, networkId), x.fact);
    SubnetsNamed(infra, index, networkId, x.fact);
    SubnetKnownIff(infra, index, networkId);
  }

  lemma AttachmentsSay(infra: Infrastructure, index: Index, name: string, ids: seq<string>, x: Argument)
    ensures Says(FilterMap(ids, AttachmentMaker(infra, index, name)), x)
            <==> exists n <- ids :: AttachmentMeans(infra, index, name, n, x)
  {
    if b :| b in FilterMap(ids, AttachmentMaker(infra, index, name)) && BlockSays(b, x) {
      var n := AttachmentFrom(infra, index, name, ids, b);
      AttachmentSays(infra, index, name, n, b, x);
    }
    if n :| n in ids && AttachmentMeans(infra, index, name, n, x) {
      SubnetKnownIff(infra, index, n);
      var b := Attachment(infra, index, name, n).value;
      assert AttachmentMaker(infra, index, name)(n) == Some(b);
      FilterMapMember(ids, AttachmentMaker(infra, index, name), b);
      AttachmentSays(infra, index, name, n, b, x);
    }
  }

  lemma TransitSays(infra: Infrastructure, index: Index, g: Gateway, x: Argument)
    requires g.kind.Transit?
    ensures Says(GatewayBlocks(infra, index, g), x) <==> GatewayMeans(infra, index, g, x)
  {
    var name, own := TerraformIdentifier(g.id), [Attribute("description", Literal)];
    SaysConcat([Resource("aws_ec2_transit_gateway", name, own)],
               FilterMap(g.peerNetworkIds, AttachmentMaker(infra, index, name)), x);
    Plain("aws_ec2_transit_gateway", name, own, x);
    ListOne(own[0], x.key, x.fact);
    AttachmentsSay(infra, index, name, g.peerNetworkIds, x);
  }

  lemma NatSays(infra: Infrastructure, index: Index, g: Gateway, x: Argument)
    requires g.kind.Nat?
    ensures Says(GatewayBlocks(infra, index, g), x) <==> GatewayMeans(infra, index, g, x)
  {
    var blocks := GatewayBlocks(infra, index, g);
    if blocks != [] {
      var eip, own := blocks[0], blocks[1];
      assert blocks == [eip] + [own];
      SaysConcat([eip], [own], x);
      Plain(eip.kind, eip.name, eip.attributes, x);
      Plain(own.kind, own.name, own.attributes, x);
      ListOne(eip.attributes[0], x.key, x.fact);
      ListTwo(own.attributes[0], own.attributes[1], x.key, x.fact);
    }
  }

  lemma SingleGatewaySays(infra: Infrastructure, index: Index, g: Gateway, x: Argument)
    requires g.kind.Internet? || g.kind.Peering?
    ensures Says(GatewayBlocks(infra, index, g), x) <==> GatewayMeans(infra, index, g, x)
  {
    var blocks := GatewayBlocks(infra, index, g);
    if blocks != [] {
      Plain(blocks[0].kind, blocks[0].name, blocks[0].attributes, x);
      if g.kind.Internet? {
        ListOne(blocks[0].attributes[0], x.key, x.fact);
      } else {
        ListThree(blocks[0].attributes[0], blocks[0].attributes[1], blocks[0].attributes[2], x.key, x.fact);
      }
    }
  }

  lemma GatewaySays(infra: Infrastructure, index: Index, g: Gateway, x: Argument)
    ensures Says(GatewayBlocks(infra, index, g), x) <==> GatewayMeans(infra, index, g, x)
  {
    match g.kind
    case Transit => TransitSays(infra, index, g, x);
    case Nat => NatSays(infra, index, g, x);
    case Internet => SingleGatewaySays(infra, index, g, x);
    case Peering => SingleGatewaySays(infra, index, g, x);
    case _ =>
  }

  // ---------- Security groups ----------

  /** A rule names a known group, or, if it names none, gives its blocks; otherwise it is skipped. */
  predicate RuleMeans(index: Index, r: SecurityRule, place: string, key: string, f: Fact) {
    && place == (if r.ingress then "ingress" else "egress")
    && (if r.sourceSecurityGroupId.Some? && r.sourceSecurityGroupId.value != "" then
          && r.sourceSecurityGroupId.value in index
          && (|| (key == "protocol" && f == Is(Literal))
              || (key == "security_groups" && Names(index, r.sourceSecurityGroupId.value, f)))
        else
          && r.cidrBlocks != []
          && ((key == "protocol" && f == Is(Literal)) || (key == "cidr_blocks" && f == Is(Texts(r.cidrBlocks)))))
  }

  predicate GroupMeans(index: Index, g: SecurityGroup, x: Argument) {
    && g.networkId in index
    && x.at == Locator("aws_security_group", TerraformIdentifier(g.id))
    && (|| (x.place == TOP && x.key == "name" && x.fact == Is(Literal))
        || (x.place == TOP && x.key == "vpc_id" && Names(index, g.networkId, x.fact))
        || exists r <- g.rules :: RuleMeans(index, r, x.place, x.key, x.fact))
  }

  lemma RuleSays(index: Index, r: SecurityRule, n: Nested, place: string, key: string, f: Fact)
    requires RuleBlock(index, r) == Some(n)
    ensures n.kind == place && ListSays(n.attributes, key, f) <==> RuleMeans(index, r, place, key, f)
  {
    ListTwo(n.attributes[0], n.attributes[1], key, f);
  }

  lemma RulesSay(index: Index, rules: seq<SecurityRule>, place: string, key: string, f: Fact)
    ensures InsideSays(FilterMap(rules, RuleMaker(index)), place, key, f)
            <==> exists r <- rules :: RuleMeans(index, r, place, key, f)
  {
    var made := FilterMap(rules, RuleMaker(index));
    if n :| n in made && n.kind == place && ListSays(n.attributes, key, f) {
      FilterMapMember(rules, RuleMaker(index), n);
      var r :| r in rules && RuleMaker(index)(r) == Some(n);
      RuleSays(index, r, n, place, key, f);
    }
    if r :| r in rules && RuleMeans(index, r, place, key, f) {
      var n := RuleBlock(index, r).value;
      assert RuleMaker(index)(r) == Some(n);
      FilterMapMember(rules, RuleMaker(index), n);
      RuleSays(index, r, n, place, key, f);
    }
  }

  lemma GroupSays(index: Index, g: SecurityGroup, x: Argument)
    ensures Says(GroupBlocks(index, g), x) <==> GroupMeans(index, g, x)
  {
    if g.networkId in index {
      var b := GroupBlocks(index, g)[0];
      SaysOne(b, x);
      ListTwo(b.attributes[0], b.attributes[1], x.key, x.fact);
      RulesSay(index, g.rules, x.place, x.key, x.fact);
    }
  }

  // ---------- Instances ----------

  /** The subnet of an instance: its own, or else that of its first interface. */
  predicate LivesIn(c: ComputeInstance, id: string) {
    && id != ""
    && (if c.subnetId.Some? && c.subnetId.value != "" then c.subnetId.value == id
        else c.interfaces != [] && c.interfaces[0].subnetId == id)
  }

  predicate IsPlacedIn(index: Index, c: ComputeInstance) {
    exists id <- index :: LivesIn(c, id)
  }

  /** An expression is copied as it is, an image id is quoted, and the default image stands in for a
      missing one. */
  predicate ImageMeans(image: Option<string>, f: Fact) {
    if image == None || image == Some("") then f == Is(DataReference("aws_ami", "amazon_linux"))
    else if '.' in image.value && !("ami-" <= image.value) then f == Is(Verbatim(image.value))
    else f == Is(Text(image.value))
  }

  predicate OwnMeans(index: Index, c: ComputeInstance, key: string, f: Fact) {
    || (key == "ami" && ImageMeans(c.image, f))
    || (key == "subnet_id" && exists id <- index :: LivesIn(c, id) && Names(index, id, f))
    || (key == "vpc_security_group_ids" && NamesOne(index, c.securityGroupIds, f))
    || (key == "associate_public_ip_address" && c.assignPublicIp && f == Is(Flag(true)))
    || (key == "source_dest_check" && c.isForwarder && f == Is(Flag(false)))
    || (key == "key_name" && KeyMeans(c.keyName, f))
  }

  predicate KeyMeans(keyName: Option<string>, f: Fact) {
    if keyName == None || keyName == Some("") then f == Is(VariableReference("ssh_key_name")) else f == Is(Text(keyName.value))
  }

  /** A further interface: neither the primary one nor on the instance's own subnet. */
  predicate NicMeans(index: Index, name: string, c: ComputeInstance, nic: NetworkInterface, x: Argument) {
    var nicName := name + "_" + TerraformIdentifier(nic.id);
    && !nic.primary && nic.subnetId in index && !LivesIn(c, nic.subnetId) && x.place == TOP
    && (|| (x.at == Locator("aws_network_interface", nicName) && x.key == "subnet_id" && Names(index, nic.subnetId, x.fact))
        || (x.at == Locator("aws_network_interface", nicName) && x.key == "source_dest_check"
            && x.fact == Is(Flag(nic.sourceDestCheck)))
        || (x.at == Locator("aws_network_interface_attachment", nicName) && x.key == "instance_id"
            && x.fact == Points(Locator("aws_instance", name), "id"))
        || (x.at == Locator("aws_network_interface_attachment", nicName) && x.key == "network_interface_id"
            && x.fact == Points(Locator("aws_network_interface", nicName), "id")))
  }

  predicate SomeNicMeans(index: Index, name: string, c: ComputeInstance, nics: seq<NetworkInterface>, x: Argument) {
    exists nic <- nics :: NicMeans(index, name, c, nic, x)
  }

  predicate InstanceMeans(index: Index, c: ComputeInstance, x: Argument) {
    var name := TerraformIdentifier(c.id);
    && IsPlacedIn(index, c)
    && (|| (x.at == Locator("aws_instance", name) && x.place == TOP && OwnMeans(index, c, x.key, x.fact))
        || SomeNicMeans(index, name, c, c.interfaces, x))
  }

  lemma PlaceMeans(index: Index, c: ComputeInstance, id: string)
    ensures LivesIn(c, id) && id in index <==> FindGiven(index, PrimarySubnet(c)).Some? && PrimarySubnet(c).value == id
  {
  }

  lemma ImageSays(image: Option<string>, f: Fact)
    ensures Gives(Image(image), f) <==> ImageMeans(image, f)
  {
  }

  lemma GroupsListed(index: Index, ids: seq<string>, key: string, f: Fact)
    ensures var groups := FilterMap(ids, Finder(index));
      ListSays(if groups != [] then [Attribute("vpc_security_group_ids", References(groups))] else [], key, f)
      <==> key == "vpc_security_group_ids" && NamesOne(index, ids, f)
  {
    FoundGives(index, ids, f);
    var groups := FilterMap(ids, Finder(index));
    if groups != [] {
      ListOne(Attribute("vpc_security_group_ids", References(groups)), key, f);
    }
  }

  lemma OptionalFlag(given: bool, a: Attribute, key: string, f: Fact)
    ensures ListSays(if given then [a] else [], key, f) <==> given && a.key == key && Gives(a.value, f)
  {
    ListOne(a, key, f);
  }

  lemma InstanceListed(index: Index, c: ComputeInstance, subnet: Locator, key: string, f: Fact)
    ensures ListSays(InstanceAttributes(index, c, subnet), key, f) <==>
            || (key == "ami" && ImageMeans(c.image, f))
            || (key == "subnet_id" && f == Points(subnet, "id"))
            || (key == "vpc_security_group_ids" && NamesOne(index, c.securityGroupIds, f))
            || (key == "associate_public_ip_address" && c.assignPublicIp && f == Is(Flag(true)))
            || (key == "source_dest_check" && c.isForwarder && f == Is(Flag(false)))
            || (key == "key_name" && KeyMeans(c.keyName, f))
  {
    var found := FilterMap(c.securityGroupIds, Finder(index));
    var own := [Attribute("ami", Image(c.image)), Attribute("subnet_id", ById(subnet))];
    var groups := if found != [] then [Attribute("vpc_security_group_ids", References(found))] else [];
    var public, check := Attribute("associate_public_ip_address", Flag(true)), Attribute("source_dest_check", Flag(false));
    var publics, checks := if c.assignPublicIp then [public] else [], if c.isForwarder then [check] else [];
    var keyed := Attribute("key_name", if HasKey(c) then Text(c.keyName.value) else VariableReference("ssh_key_name"));
    ListConcat(own + groups + publics + checks, [keyed], key, f);
    ListConcat(own + groups + publics, checks, key, f);
    ListConcat(own + groups, publics, key, f);
    ListConcat(own, groups, key, f);
    ListTwo(own[0], own[1], key, f);
    ImageSays(c.image, f);
    GroupsListed(index, c.securityGroupIds, key, f);
    OptionalFlag(c.assignPublicIp, public, key, f);
    OptionalFlag(c.isForwarder, check, key, f);
    ListOne(keyed, key, f);
  }

  lemma NicSays(index: Index, name: string, c: ComputeInstance, nic: NetworkInterface, x: Argument)
    requires IsPlacedIn(index, c)
    ensures Says(NicBlocks(index, name, PrimarySubnet(c), nic), x) <==> NicMeans(index, name, c, nic, x)
  {
    var blocks := NicBlocks(index, name, PrimarySubnet(c), nic);
    if blocks != [] {
      var own, attachment := blocks[0], blocks[1];
      assert blocks == [own] + [attachment];
      SaysConcat([own], [attachment], x);
      Plain(own.kind, own.name, own.attributes, x);
      Plain(attachment.kind, attachment.name, attachment.attributes, x);
      ListTwo(own.attributes[0], own.attributes[1], x.key, x.fact);
      ListTwo(attachment.attributes[0], attachment.attributes[1], x.key, x.fact);
    }
  }

  lemma {:induction false} NicsSay(index: Index, name: string, c: ComputeInstance, nics: seq<NetworkInterface>, x: Argument)
    requires IsPlacedIn(index, c)
    ensures Says(AllNicBlocks(index, name, PrimarySubnet(c), nics), x) <==> SomeNicMeans(index, name, c, nics, x)
  {
    if nics != [] {
      var front, last := nics[..|nics| - 1], nics[|nics| - 1];
      NicsSay(index, name, c, front, x);
      NicSays(index, name, c, last, x);
      SaysConcat(AllNicBlocks(index, name, PrimarySubnet(c), front), NicBlocks(index, name, PrimarySubnet(c), last), x);
      assert forall nic <- nics :: nic in front || nic == last;
      assert forall nic <- front :: nic in nics;
    }
  }

  lemma InstanceSays(index: Index, c: ComputeInstance, x: Argument)
    ensures Says(InstanceBlocks(index, c), x) <==> InstanceMeans(index, c, x)
  {
    if id :| id in index && LivesIn(c, id) {
      PlaceMeans(index, c, id);
      var name, attributes := TerraformIdentifier(c.id), InstanceAttributes(index, c, index[id]);
      SaysConcat([Resource("aws_instance", name, attributes)], AllNicBlocks(index, name, PrimarySubnet(c), c.interfaces), x);
      Plain("aws_instance", name, attributes, x);
      InstanceListed(index, c, index[id], x.key, x.fact);
      NicsSay(index, name, c, c.interfaces, x);
    } else if FindGiven(index, PrimarySubnet(c)).Some? {
      PlaceMeans(index, c, PrimarySubnet(c).value);
    }
  }

  // ---------- Databases ----------

  predicate DatabaseMeans(index: Index, d: Database, x: Argument) {
    var name := TerraformIdentifier(d.id);
    && KnownTwice(index, d.subnetIds) && x.place == TOP
    && (|| (x.at == Locator("aws_db_subnet_group", name) && x.key == "subnet_ids" && NamesOne(index, d.subnetIds, x.fact))
        || (x.at == Locator("aws_db_instance", name)
            && (|| (x.key == "db_subnet_group_name" && x.fact == Points(Locator("aws_db_subnet_group", name), "name"))
                || (x.key == "vpc_security_group_ids" && NamesOne(index, d.securityGroupIds, x.fact))
                || (x.key == "username" && x.fact == Is(VariableReference(name + "_username")))
                || (x.key == "password" && x.fact == Is(VariableReference(name + "_password"))))))
  }

  /** At two places of the list there are known ids. */
  predicate KnownTwice(index: Index, ids: seq<string>) {
    exists j, k | 0 <= j < k < |ids| :: ids[j] in index && ids[k] in index
  }

  lemma {:induction false} FoundTwice(index: Index, ids: seq<string>)
    ensures |FilterMap(ids, Finder(index))| >= 2 <==> KnownTwice(index, ids)
  {
    if ids != [] {
      var front, last := ids[..|ids| - 1], |ids| - 1;
      FoundTwice(index, front);
      FoundIff(index, front);
      if SomeKnown(index, front) && ids[last] in index {
        var j :| 0 <= j < |front| && front[j] in index;
        assert ids[j] in index;
      }
      if KnownTwice(index, front) {
        var j, k :| 0 <= j < k < |front| && front[j] in index && front[k] in index;
        assert ids[j] in index && ids[k] in index;
      }
      if KnownTwice(index, ids) {
        var j, k :| 0 <= j < k < |ids| && ids[j] in index && ids[k] in index;
        assert front[j] in front && front[j] in index;
        assert k < last ==> front[k] in index;
      }
    }
  }

  lemma DatabaseSays(index: Index, d: Database, x: Argument)
    ensures Says(DatabaseBlocks(index, d), x) <==> DatabaseMeans(index, d, x)
  {
    FoundTwice(index, d.subnetIds);
    var blocks := DatabaseBlocks(index, d);
    if blocks != [] {
      var group, own := blocks[0], blocks[1];
      assert blocks == [group] + [own];
      SaysConcat([group], [own], x);
      Plain(group.kind, group.name, group.attributes, x);
      ListOne(group.attributes[0], x.key, x.fact);
      FoundGives(index, d.subnetIds, x.fact);
      Plain(own.kind, own.name, own.attributes, x);
      DatabaseListed(index, d, x.key, x.fact);
    }
  }

  lemma DatabaseListed(index: Index, d: Database, key: string, f: Fact)
    requires DatabaseBlocks(index, d) != []
    ensures var name := TerraformIdentifier(d.id);
      ListSays(DatabaseBlocks(index, d)[1].attributes, key, f) <==>
      || (key == "db_subnet_group_name" && f == Points(Locator("aws_db_subnet_group", name), "name"))
      || (key == "vpc_security_group_ids" && NamesOne(index, d.securityGroupIds, f))
      || (key == "username" && f == Is(VariableReference(name + "_username")))
      || (key == "password" && f == Is(VariableReference(name + "_password")))
  {
    var name, found := TerraformIdentifier(d.id), FilterMap(d.securityGroupIds, Finder(index));
    var own := [Attribute("db_subnet_group_name", Reference(Locator("aws_db_subnet_group", name), "name"))];
    var groups := if found != [] then [Attribute("vpc_security_group_ids", References(found))] else [];
    var secrets := [Attribute("username", VariableReference(name + "_username")),
                    Attribute("password", VariableReference(name + "_password"))];
    assert DatabaseBlocks(index, d)[1].attributes == own + groups + secrets;
    ListConcat(own + groups, secrets, key, f);
    ListConcat(own, groups, key, f);
    ListOne(own[0], key, f);
    GroupsListed(index, d.securityGroupIds, key, f);
    ListTwo(secrets[0], secrets[1], key, f);
  }

  // ---------- Load balancers ----------

  predicate TargetMeans(index: Index, groupName: string, id: string, x: Argument) {
    && id in index
    && x.at == Locator("aws_lb_target_group_attachment", groupName + "_" + TerraformIdentifier(id)) && x.place == TOP
    && (|| (x.key == "target_group_arn" && x.fact == Points(Locator("aws_lb_target_group", groupName), "arn"))
        || (x.key == "target_id" && Names(index, id, x.fact)))
  }

  predicate ListenerMeans(index: Index, b: LoadBalancer, networkId: string, k: nat, x: Argument) {
    var name := TerraformIdentifier(b.id);
    var groupName := name + "_tg_" + Digits(k);
    || (x.at == Locator("aws_lb_target_group", groupName) && x.place == TOP
        && ((x.key == "port" && x.fact == Is(Literal)) || (x.key == "vpc_id" && Names(index, networkId, x.fact))))
    || x == Argument(Locator("aws_lb_listener", name + "_listener_" + Digits(k)), TOP, "load_balancer_arn",
                     Points(Locator("aws_lb", name), "arn"))
    || x == Argument(Locator("aws_lb_listener", name + "_listener_" + Digits(k)), "default_action", "target_group_arn",
                     Points(Locator("aws_lb_target_group", groupName), "arn"))
    || exists id <- b.targetComputeIds :: TargetMeans(index, groupName, id, x)
  }

  predicate SomeListenerMeans(index: Index, b: LoadBalancer, networkId: string, count: nat, x: Argument) {
    exists k: nat | k < count :: ListenerMeans(index, b, networkId, k, x)
  }

  predicate BalancerMeans(index: Index, b: LoadBalancer, x: Argument) {
    && SomeKnown(index, b.subnetIds)
    && (|| (x.at == Locator("aws_lb", TerraformIdentifier(b.id)) && x.place == TOP
            && (|| (x.key == "subnets" && NamesOne(index, b.subnetIds, x.fact))
                || (x.key == "security_groups" && b.isApplication && NamesOne(index, b.securityGroupIds, x.fact))))
        || (b.networkId.Some? && b.networkId.value != "" && b.networkId.value in index
            && SomeListenerMeans(index, b, b.networkId.value, b.listeners, x)))
  }

  lemma TargetSays(index: Index, groupName: string, id: string, b: Block, x: Argument)
    requires TargetBlock(index, groupName, id) == Some(b)
    ensures BlockSays(b, x) <==> TargetMeans(index, groupName, id, x)
  {
    ListTwo(b.attributes[0], b.attributes[1], x.key, x.fact);
  }

  lemma TargetsSay(index: Index, ids: seq<string>, groupName: string, x: Argument)
    ensures Says(FilterMap(ids, TargetMaker(index, groupName)), x)
            <==> exists id <- ids :: TargetMeans(index, groupName, id, x)
  {
    if b :| b in FilterMap(ids, TargetMaker(index, groupName)) && BlockSays(b, x) {
      FilterMapMember(ids, TargetMaker(index, groupName), b);
      var id :| id in ids && TargetMaker(index, groupName)(id) == Some(b);
      TargetSays(index, groupName, id, b, x);
    }
    if id :| id in ids && TargetMeans(index, groupName, id, x) {
      var b := TargetBlock(index, groupName, id).value;
      assert TargetMaker(index, groupName)(id) == Some(b);
      FilterMapMember(ids, TargetMaker(index, groupName), b);
      TargetSays(index, groupName, id, b, x);
    }
  }

  lemma ListenerSays(index: Index, b: LoadBalancer, networkId: string, k: nat, x: Argument)
    requires networkId in index
    ensures Says(ListenerBlocks(index, b, index[networkId], k), x) <==> ListenerMeans(index, b, networkId, k, x)
  {
    var groupName := GroupName(TerraformIdentifier(b.id), k);
    var blocks := ListenerBlocks(index, b, index[networkId], k);
    var group, own := blocks[0], blocks[1];
    var targets := FilterMap(b.targetComputeIds, TargetMaker(index, groupName));
    assert blocks == [group] + ([own] + targets);
    SaysConcat([group], [own] + targets, x);
    SaysConcat([own], targets, x);
    Plain(group.kind, group.name, group.attributes, x);
    ListTwo(group.attributes[0], group.attributes[1], x.key, x.fact);
    ListenerItselfSays(own, x);
    TargetsSay(index, b.targetComputeIds, groupName, x);
  }

  lemma ListenerItselfSays(b: Block, x: Argument)
    requires |b.attributes| == 1 && |b.blocks| == 1 && |b.blocks[0].attributes| == 1
    ensures Says([b], x) <==>
            && b.At() == x.at
            && (|| (x.place == TOP && b.attributes[0].key == x.key && Gives(b.attributes[0].value, x.fact))
                || (x.place == b.blocks[0].kind && b.blocks[0].attributes[0].key == x.key
                    && Gives(b.blocks[0].attributes[0].value, x.fact)))
  {
    SaysOne(b, x);
    assert b.blocks == [b.blocks[0]] && b.attributes == [b.attributes[0]];
    assert b.blocks[0].attributes == [b.blocks[0].attributes[0]];
    ListOne(b.attributes[0], x.key, x.fact);
    ListOne(b.blocks[0].attributes[0], x.key, x.fact);
    assert b.blocks[0] in b.blocks;
  }

  lemma {:induction false} ListenersSay(index: Index, b: LoadBalancer, networkId: string, count: nat, x: Argument)
    requires networkId in index
    ensures Says(AllListenerBlocks(index, b, Some(index[networkId]), count), x)
            <==> SomeListenerMeans(index, b, networkId, count, x)
  {
    if count > 0 {
      ListenersSay(index, b, networkId, count - 1, x);
      ListenerSays(index, b, networkId, count - 1, x);
      SaysConcat(AllListenerBlocks(index, b, Some(index[networkId]), count - 1),
                 ListenerBlocks(index, b, index[networkId], count - 1), x);
      OneMoreListener(index, b, networkId, count, x);
    }
  }

  lemma OneMoreListener(index: Index, b: LoadBalancer, networkId: string, count: nat, x: Argument)
    requires count > 0
    ensures SomeListenerMeans(index, b, networkId, count, x)
            <==> SomeListenerMeans(index, b, networkId, count - 1, x) || ListenerMeans(index, b, networkId, count - 1, x)
  {
  }

  lemma BalancerListed(index: Index, b: LoadBalancer, key: string, f: Fact)
    ensures ListSays(BalancerAttributes(index, b), key, f) <==>
            || (key == "subnets" && NamesOne(index, b.subnetIds, f))
            || (key == "security_groups" && b.isApplication && NamesOne(index, b.securityGroupIds, f))
  {
    var found := FilterMap(b.securityGroupIds, Finder(index));
    var own := [Attribute("subnets", References(FilterMap(b.subnetIds, Finder(index))))];
    var groups := Attribute("security_groups", References(found));
    ListConcat(own, if found != [] && b.isApplication then [groups] else [], key, f);
    ListOne(own[0], key, f);
    OptionalFlag(found != [] && b.isApplication, groups, key, f);
    FoundGives(index, b.subnetIds, f);
    FoundGives(index, b.securityGroupIds, f);
  }

  lemma BalancerSays(index: Index, b: LoadBalancer, x: Argument)
    ensures Says(BalancerBlocks(index, b), x) <==> BalancerMeans(index, b, x)
  {
    FoundIff(index, b.subnetIds);
    if SomeKnown(index, b.subnetIds) {
      var network := FindGiven(index, b.networkId);
      var name, attributes := TerraformIdentifier(b.id), BalancerAttributes(index, b);
      SaysConcat([Resource("aws_lb", name, attributes)],
                 AllListenerBlocks(index, b, network, if network.None? then 0 else b.listeners), x);
      Plain("aws_lb", name, attributes, x);
      BalancerListed(index, b, x.key, x.fact);
      if network.Some? {
        ListenersSay(index, b, b.networkId.value, b.listeners, x);
      }
    }
  }

  // ---------- Any resource, and the whole project ----------

  predicate Means(infra: Infrastructure, index: Index, r: CloudResource, x: Argument) {
    match r
    case OfNetwork(n) => NetworkMeans(n, x)
    case OfSubnet(s) => SubnetMeans(infra, index, s, x)
    case OfTable(t) => TableMeans(index, t, x)
    case OfGateway(g) => GatewayMeans(infra, index, g, x)
    case OfGroup(g) => GroupMeans(index, g, x)
    case OfCompute(c) => InstanceMeans(index, c, x)
    case OfDatabase(d) => DatabaseMeans(index, d, x)
    case OfBalancer(b) => BalancerMeans(index, b, x)
  }

  lemma BlocksSay(infra: Infrastructure, index: Index, r: CloudResource, x: Argument)
    ensures Says(Blocks(infra, index, r), x) <==> Means(infra, index, r, x)
  {
    match r
    case OfNetwork(n) => NetworkSays(n, x);
    case OfSubnet(s) => SubnetSays(infra, index, s, x);
    case OfTable(t) => TableSays(index, t, x);
    case OfGateway(g) => GatewaySays(infra, index, g, x);
    case OfGroup(g) => GroupSays(index, g, x);
    case OfCompute(c) => InstanceSays(index, c, x);
    case OfDatabase(d) => DatabaseSays(index, d, x);
    case OfBalancer(b) => BalancerSays(index, b, x);
  }

  /** main.tf says exactly what the resources of the architecture mean. */
  lemma MainSaysExactly(infra: Infrastructure, x: Argument)
    ensures Says(ProjectOf(infra).main, x) <==> exists r :: IsPart(infra, r) && Means(infra, TheIndex(infra), r, x)
  {
    var index := TheIndex(infra);
    if b :| b in ProjectOf(infra).main && BlockSays(b, x) {
      var r := InMainFrom(infra, index, EmissionOrder(infra), b);
      SameResources(infra, r);
      ResourceIsPart(infra, r);
      BlocksSay(infra, index, r, x);
    }
    if r :| IsPart(infra, r) && Means(infra, index, r, x) {
      BlocksSay(infra, index, r, x);
      var b :| b in Blocks(infra, index, r) && BlockSays(b, x);
      PartIsListed(infra, r);
      SameResources(infra, r);
      InMainWhen(infra, index, EmissionOrder(infra), r, b);
    }
  }
}
