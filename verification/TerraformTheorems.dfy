/**
 When the generated Terraform is well scoped: exactly when no emitted resource uses one that the
 mappers drop and every image printed as an expression names something that is declared.
 */
module TerraformTheorems {
  import opened Addressing
  import opened CloudModel
  import opened Decimal
  import opened Framing
  import opened Lists
  import opened Terraform
  import opened TerraformMapping
  import opened TerraformScoping
  import opened Wrappers

  // ---------- Addresses of resources ----------

  predicate IsResourceType(kind: string) {
    || kind == "aws_vpc" || kind == "aws_subnet" || kind == "aws_route_table" || kind == "aws_instance"
    || kind == "aws_db_instance" || kind == "aws_lb" || kind == "aws_security_group" || kind == "aws_internet_gateway"
    || kind == "aws_nat_gateway" || kind == "aws_ec2_transit_gateway" || kind == "aws_vpc_peering_connection"
    || kind == "aws_vpn_gateway"
  }

  lemma OtherTypes()
    ensures !IsResourceType("aws_vpc_ipv4_cidr_block_association") && !IsResourceType("aws_route_table_association")
    ensures !IsResourceType("aws_ec2_transit_gateway_vpc_attachment") && !IsResourceType("aws_eip")
    ensures !IsResourceType("aws_network_interface") && !IsResourceType("aws_network_interface_attachment")
    ensures !IsResourceType("aws_db_subnet_group") && !IsResourceType("aws_lb_target_group")
    ensures !IsResourceType("aws_lb_listener") && !IsResourceType("aws_lb_target_group_attachment")
  {
  }

  /** None of the blocks declares one of the resources themselves. */
  predicate AllAuxiliary(blocks: seq<Block>) {
    forall b <- blocks :: !IsResourceType(b.kind)
  }

  lemma {:induction false} SecondaryAuxiliary(name: string, cidrs: seq<SubnetSpec>)
    ensures AllAuxiliary(Secondary(name, cidrs))
  {
    if cidrs != [] {
      OtherTypes();
      SecondaryAuxiliary(name, cidrs[..|cidrs| - 1]);
    }
  }

  lemma AssociationsAuxiliary(index: Index, ids: seq<string>, name: string)
    ensures AllAuxiliary(FilterMap(ids, AssociationMaker(index, name)))
  {
    forall b | b in FilterMap(ids, AssociationMaker(index, name)) ensures !IsResourceType(b.kind) {
      OtherTypes();
      FilterMapMember(ids, AssociationMaker(index, name), b);
    }
  }

  lemma AttachmentsAuxiliary(infra: Infrastructure, index: Index, ids: seq<string>, name: string)
    ensures AllAuxiliary(FilterMap(ids, AttachmentMaker(infra, index, name)))
  {
    forall b | b in FilterMap(ids, AttachmentMaker(infra, index, name)) ensures !IsResourceType(b.kind) {
      OtherTypes();
      FilterMapMember(ids, AttachmentMaker(infra, index, name), b);
    }
  }

  lemma {:induction false} NicsAuxiliary(index: Index, name: string, primary: Option<string>, nics: seq<NetworkInterface>)
    ensures AllAuxiliary(AllNicBlocks(index, name, primary, nics))
  {
    if nics != [] {
      OtherTypes();
      NicsAuxiliary(index, name, primary, nics[..|nics| - 1]);
    }
  }

  lemma TargetsAuxiliary(index: Index, ids: seq<string>, groupName: string)
    ensures AllAuxiliary(FilterMap(ids, TargetMaker(index, groupName)))
  {
    forall b | b in FilterMap(ids, TargetMaker(index, groupName)) ensures !IsResourceType(b.kind) {
      OtherTypes();
      FilterMapMember(ids, TargetMaker(index, groupName), b);
    }
  }

  lemma AuxiliaryConcat(a: seq<Block>, b: seq<Block>)
    ensures AllAuxiliary(a + b) <==> AllAuxiliary(a) && AllAuxiliary(b)
  {
    assert forall x :: x in a + b <==> x in a || x in b;
  }

  lemma ListenerAuxiliary(index: Index, b: LoadBalancer, network: Locator, k: nat)
    ensures AllAuxiliary(ListenerBlocks(index, b, network, k))
  {
    OtherTypes();
    var blocks, groupName := ListenerBlocks(index, b, network, k), GroupName(TerraformIdentifier(b.id), k);
    var targets := FilterMap(b.targetComputeIds, TargetMaker(index, groupName));
    TargetsAuxiliary(index, b.targetComputeIds, groupName);
    assert blocks == [blocks[0], blocks[1]] + targets;
    AuxiliaryConcat([blocks[0], blocks[1]], targets);
  }

  lemma {:induction false} ListenersAuxiliary(index: Index, b: LoadBalancer, network: Option<Locator>, count: nat)
    requires network.None? ==> count == 0
    ensures AllAuxiliary(AllListenerBlocks(index, b, network, count))
  {
    if count > 0 {
      ListenersAuxiliary(index, b, network, count - 1);
      ListenerAuxiliary(index, b, network.value, count - 1);
      AuxiliaryConcat(AllListenerBlocks(index, b, network, count - 1), ListenerBlocks(index, b, network.value, count - 1));
    }
  }

  /** The first block is the resource, the rest is auxiliary. */
  predicate LeadsAt(blocks: seq<Block>, a: Locator) {
    blocks != [] && blocks[0].At() == a && AllAuxiliary(blocks[1..])
  }

  lemma OnlyLeader(blocks: seq<Block>, a: Locator, b: Block)
    requires LeadsAt(blocks, a) && b in blocks && IsResourceType(b.kind)
    ensures b.At() == a
  {
    assert blocks == [blocks[0]] + blocks[1..];
  }

  lemma TransitLeads(infra: Infrastructure, index: Index, g: Gateway, b: Block)
    requires g.kind.Transit? && b in GatewayBlocks(infra, index, g) && IsResourceType(b.kind)
    ensures b.At() == OfGateway(g).At()
  {
    AttachmentsAuxiliary(infra, index, g.peerNetworkIds, TerraformIdentifier(g.id));
    OnlyLeader(GatewayBlocks(infra, index, g), OfGateway(g).At(), b);
  }

  lemma NatLeads(infra: Infrastructure, index: Index, g: Gateway, b: Block)
    requires g.kind.Nat? && b in GatewayBlocks(infra, index, g) && IsResourceType(b.kind)
    ensures b.At() == OfGateway(g).At()
  {
    OtherTypes();
  }

  lemma GatewayLeads(infra: Infrastructure, index: Index, g: Gateway, b: Block)
    requires b in GatewayBlocks(infra, index, g) && IsResourceType(b.kind)
    ensures b.At() == OfGateway(g).At()
  {
    if g.kind.Transit? {
      TransitLeads(infra, index, g, b);
    } else if g.kind.Nat? {
      NatLeads(infra, index, g, b);
    } else {
      OnlyBlock(GatewayBlocks(infra, index, g), b);
    }
  }

  lemma OnlyBlock(blocks: seq<Block>, b: Block)
    requires |blocks| <= 1 && b in blocks
    ensures b == blocks[0]
  {
  }

  lemma BalancerLeads(index: Index, l: LoadBalancer, b: Block)
    requires b in BalancerBlocks(index, l) && IsResourceType(b.kind)
    ensures b.At() == OfBalancer(l).At()
  {
    var blocks, network := BalancerBlocks(index, l), FindGiven(index, l.networkId);
    var count := if network.None? then 0 else l.listeners;
    ListenersAuxiliary(index, l, network, count);
    assert blocks[1..] == AllListenerBlocks(index, l, network, count);
    OnlyLeader(blocks, OfBalancer(l).At(), b);
  }

  lemma DatabaseLeads(index: Index, d: Database, b: Block)
    requires b in DatabaseBlocks(index, d) && IsResourceType(b.kind)
    ensures b.At() == OfDatabase(d).At()
  {
    OtherTypes();
  }

  /** A resource's blocks declare no other resource. */
  lemma OnlyOwnResource(infra: Infrastructure, index: Index, r: CloudResource, b: Block)
    requires b in Blocks(infra, index, r) && IsResourceType(b.kind)
    ensures b.At() == r.At()
  {
    var blocks := Blocks(infra, index, r);
    match r {
      case OfNetwork(n) =>
        SecondaryAuxiliary(r.Name(), n.secondaryCidrs);
        OnlyLeader(blocks, r.At(), b);
      case OfTable(t) =>
        AssociationsAuxiliary(index, t.associatedSubnetIds, r.Name());
        OnlyLeader(blocks, r.At(), b);
      case OfCompute(c) =>
        NicsAuxiliary(index, r.Name(), PrimarySubnet(c), c.interfaces);
        OnlyLeader(blocks, r.At(), b);
      case OfGateway(g) => GatewayLeads(infra, index, g, b);
      case OfBalancer(l) => BalancerLeads(index, l, b);
      case OfDatabase(d) => DatabaseLeads(index, d, b);
      case OfSubnet(_) =>
      case OfGroup(_) =>
    }
  }

  // ---------- The exact condition ----------

  /** Ids and Terraform addresses are each unique. */
  predicate LabelsApart(infra: Infrastructure) {
    forall r <- Resources(infra), s <- Resources(infra) :: r.Id() == s.Id() || r.At() == s.At() ==> r == s
  }

  lemma IndexedAt(infra: Infrastructure, s: CloudResource)
    requires LabelsApart(infra) && s in Resources(infra)
    ensures s.Id() in TheIndex(infra) && TheIndex(infra)[s.Id()] == s.At()
  {
    IndexMeans(Resources(infra), s.Id());
  }

  lemma IsOfResourceType(s: CloudResource)
    ensures IsResourceType(s.At().kind)
  {
  }

  lemma DeclaredBy(infra: Infrastructure, a: Locator) returns (r: CloudResource, b: Block)
    requires Declared(ProjectOf(infra).main, a)
    ensures r in Resources(infra) && b in Blocks(infra, TheIndex(infra), r) && b.At() == a
  {
    b :| b in ProjectOf(infra).main && b.At() == a;
    r := InMainFrom(infra, TheIndex(infra), EmissionOrder(infra), b);
    SameResources(infra, r);
  }

  lemma DeclaredIsEmitted(infra: Infrastructure, s: CloudResource)
    requires LabelsApart(infra) && s in Resources(infra) && Declared(ProjectOf(infra).main, s.At())
    ensures IsEmitted(infra, s)
  {
    var r, b := DeclaredBy(infra, s.At());
    IsOfResourceType(s);
    OnlyOwnResource(infra, TheIndex(infra), r, b);
    EmittedIff(infra, TheIndex(infra), r);
  }

  lemma MainMentions(infra: Infrastructure, r: CloudResource, u: Use)
    requires r in Resources(infra) && Mentions(Blocks(infra, TheIndex(infra), r), u)
    ensures Mentions(ProjectOf(infra).main, u)
  {
    var b :| b in Blocks(infra, TheIndex(infra), r) && BlockMentions(b, u);
    SameResources(infra, r);
    InMainWhen(infra, TheIndex(infra), EmissionOrder(infra), r, b);
  }

  lemma ScopedSoNoneDangling(infra: Infrastructure)
    requires LabelsApart(infra) && WellScoped(ProjectOf(infra))
    ensures NoneDangling(infra)
  {
    var index := TheIndex(infra);
    forall r, s | r in Resources(infra) && s in Resources(infra) && IsEmitted(infra, r) && s.Id() in UsedIds(infra, index, r)
      ensures IsEmitted(infra, s)
    {
      IndexedAt(infra, s);
      IdMentioned(infra, index, r, s.Id());
      MainMentions(infra, r, OfResource(s.At()));
      DeclaredIsEmitted(infra, s);
    }
  }

  lemma ExpressionMentioned(infra: Infrastructure, c: ComputeInstance, u: Use)
    requires c in infra.compute && HasExpression(infra, c) && u in UsesOf(Verbatim(c.image.value))
    ensures Mentions(ProjectOf(infra).main, u)
  {
    var index := TheIndex(infra);
    var blocks := InstanceBlocks(index, c);
    ImageUses(c.image, u);
    InstanceAttributesUse(index, c, index[PrimarySubnet(c).value], u);
    assert blocks[0] in blocks && BlockMentions(blocks[0], u);
    MainMentions(infra, OfCompute(c), u);
  }

  lemma ScopedSoImagesResolve(infra: Infrastructure)
    requires WellScoped(ProjectOf(infra)) && ImagesReadable(infra)
    ensures ImagesResolve(infra)
  {
    forall c | c in infra.compute && HasExpression(infra, c)
      ensures Meaning(c.image.value).Some? && Provided(infra, Meaning(c.image.value).value)
    {
      var u := Meaning(c.image.value).value;
      MeaningUsed(c.image.value, u);
      ExpressionMentioned(infra, c, u);
      ProvidedIsDeclared(infra, u);
    }
  }

  /** The generated Terraform is well scoped exactly when no emitted resource uses a dropped one
      and the image expressions of emitted instances name declared things. */
  lemma WellScopedIff(infra: Infrastructure)
    requires LabelsApart(infra) && ImagesReadable(infra)
    ensures WellScoped(ProjectOf(infra)) <==> NoneDangling(infra) && ImagesResolve(infra)
  {
    if NoneDangling(infra) && ImagesResolve(infra) {
      ScopedWhenComplete(infra);
    }
    if WellScoped(ProjectOf(infra)) {
      ScopedSoNoneDangling(infra);
      ScopedSoImagesResolve(infra);
    }
  }

  lemma SplitAtDot(head: string, tail: string)
    requires '.' !in head
    ensures SplitDots(head + "." + tail) == [head] + SplitDots(tail)
  {
    var text := head + "." + tail;
    DotAfter(head, tail);
    assert text[..|head|] == head && text[|head| + 1..] == tail;
  }

  lemma {:induction false} DotAfter(head: string, tail: string)
    requires '.' !in head
    ensures FirstDot(head + "." + tail) == |head|
  {
    if head != "" {
      DotAfter(head[1..], tail);
      assert (head + "." + tail)[1..] == head[1..] + "." + tail;
    }
  }

  lemma NoDot(text: string)
    requires '.' !in text
    ensures SplitDots(text) == [text]
  {
    DotAfter(text, "");
    FirstDotUntil(text);
  }

  lemma {:induction false} FirstDotUntil(text: string)
    requires '.' !in text
    ensures FirstDot(text) == |text|
  {
    if text != "" {
      FirstDotUntil(text[1..]);
    }
  }

  // ---------- What a dotted name means ----------

  predicate IsNameChar(c: char) {
    'a' <= c <= 'z' || 'A' <= c <= 'Z' || '0' <= c <= '9' || c == '_' || c == '-'
  }

  /** A name in the configuration language: letters, digits, underscores and dashes, no digit or dash first. */
  predicate IsName(t: string) {
    && t != "" && (forall i | 0 <= i < |t| :: IsNameChar(t[i]))
    && !('0' <= t[0] <= '9') && t[0] != '-'
  }

  /** Names with dots between them. */
  predicate IsDotted(text: string, parts: seq<string>) {
    |parts| >= 2 && text == Joined(parts, '.') && forall k | 0 <= k < |parts| :: IsName(parts[k])
  }

  lemma LabelIff(t: string)
    ensures IsLabel(t) <==> IsName(t)
  {
    if IsLabel(t) {
      forall i | 0 <= i < |t| ensures IsNameChar(t[i]) {
        assert t[i] in t;
      }
    }
  }

  lemma {:induction false} SplitJoined(parts: seq<string>)
    requires parts != [] && AllFree(parts, '.')
    ensures SplitDots(Joined(parts, '.')) == parts
  {
    assert parts[0] in parts;
    if |parts| == 1 {
      NoDot(parts[0]);
    } else {
      SplitJoined(parts[1..]);
      SplitAtDot(parts[0], Joined(parts[1..], '.'));
      assert "." == ['.'];
    }
  }

  lemma {:induction false} FirstDotIs(text: string)
    ensures FirstDot(text) < |text| ==> text[FirstDot(text)] == '.'
  {
    if text != "" && text[0] != '.' {
      FirstDotIs(text[1..]);
    }
  }

  lemma {:induction false} JoinedSplit(text: string)
    ensures Joined(SplitDots(text), '.') == text
    decreases |text|
  {
    var i := FirstDot(text);
    if i < |text| {
      FirstDotIs(text);
      JoinedSplit(text[i + 1..]);
      assert text == text[..i] + ['.'] + text[i + 1..];
      assert SplitDots(text)[1..] == SplitDots(text[i + 1..]);
    }
  }

  lemma NamesAreFree(parts: seq<string>)
    requires forall k | 0 <= k < |parts| :: IsName(parts[k])
    ensures AllFree(parts, '.') && forall part <- parts :: IsLabel(part)
  {
    forall part | part in parts ensures '.' !in part && IsLabel(part) {
      LabelIff(part);
    }
  }

  /** What a dotted name stands on: a variable, a data source, a resource, or none of them. */
  predicate StandsOn(parts: seq<string>, u: Use)
    requires |parts| >= 2
  {
    var root := parts[0];
    if root == "var" then u == OfVariable(parts[1])
    else if root == "data" then |parts| > 2 && u == OfData(parts[1], parts[2])
    else
      && root != "local" && root != "module" && root != "path" && root != "terraform" && root != "each"
      && root != "count" && root != "self"
      && u == OfResource(Locator(root, parts[1]))
  }

  /** A text means something exactly when it is a dotted name, and then what its parts say. */
  lemma MeaningExactly(text: string, u: Use)
    ensures Meaning(text) == Some(u) <==> exists parts :: IsDotted(text, parts) && StandsOn(parts, u)
  {
    if Meaning(text) == Some(u) {
      MeaningHasParts(text, u);
    }
    if parts :| IsDotted(text, parts) && StandsOn(parts, u) {
      PartsHaveMeaning(text, parts, u);
    }
  }

  lemma MeaningHasParts(text: string, u: Use)
    requires Meaning(text) == Some(u)
    ensures IsDotted(text, SplitDots(text)) && StandsOn(SplitDots(text), u)
  {
    var split := SplitDots(text);
    JoinedSplit(text);
    forall k | 0 <= k < |split| ensures IsName(split[k]) {
      assert split[k] in split;
      LabelIff(split[k]);
    }
  }

  lemma PartsHaveMeaning(text: string, parts: seq<string>, u: Use)
    requires IsDotted(text, parts) && StandsOn(parts, u)
    ensures Meaning(text) == Some(u)
  {
    NamesAreFree(parts);
    SplitJoined(parts);
  }

  lemma FourParts(a: string, b: string, c: string, d: string)
    requires '.' !in a && '.' !in b && '.' !in c && '.' !in d
    ensures SplitDots(a + "." + (b + "." + (c + "." + d))) == [a, b, c, d]
  {
    NoDot(d);
    SplitAtDot(c, d);
    SplitAtDot(b, c + "." + d);
    SplitAtDot(a, b + "." + (c + "." + d));
  }

  lemma PartsMean(text: string, root: string, kind: string, name: string, attribute: string)
    requires SplitDots(text) == [root, kind, name, attribute] && root == "data"
    requires IsLabel(root) && IsLabel(kind) && IsLabel(name) && IsLabel(attribute)
    ensures Meaning(text) == Some(OfData(kind, name))
  {
    var parts := SplitDots(text);
    assert forall part <- parts :: IsLabel(part);
    assert parts[0][0] == 'd';
  }

  lemma DataMeans(kind: string, name: string, attribute: string)
    requires IsLabel(kind) && IsLabel(name) && IsLabel(attribute)
    requires '.' !in kind && '.' !in name && '.' !in attribute
    ensures Meaning("data" + "." + (kind + "." + (name + "." + attribute))) == Some(OfData(kind, name))
  {
    FourParts("data", kind, name, attribute);
    PartsMean("data" + "." + (kind + "." + (name + "." + attribute)), "data", kind, name, attribute);
  }

  lemma ImageLabels()
    ensures IsLabel("aws_ami") && IsLabel("amazon_linux") && IsLabel("id")
    ensures '.' !in "aws_ami" && '.' !in "amazon_linux" && '.' !in "id"
  {
  }

  lemma IsExpression(rest: string)
    ensures LooksLikeReference(Some("data" + "." + rest))
  {
    var text := "data" + "." + rest;
    assert text[0] == 'd' && text[4] == '.';
  }

  /** `data.aws_ami.amazon_linux.id`. */
  const DATA_IMAGE: string := "data" + "." + ("aws_ami" + "." + ("amazon_linux" + "." + "id"))

  /** The expression that stands for a missing image, given as an image, means the same data source. */
  lemma DataImageResolves(infra: Infrastructure)
    ensures LooksLikeReference(Some(DATA_IMAGE))
    ensures Meaning(DATA_IMAGE) == Some(OfData("aws_ami", "amazon_linux"))
    ensures Provided(infra, OfData("aws_ami", "amazon_linux"))
  {
    ImageLabels();
    DataMeans("aws_ami", "amazon_linux", "id");
    IsExpression("aws_ami" + "." + ("amazon_linux" + "." + "id"));
  }

  lemma RouteTargetUsed(infra: Infrastructure, t: RouteTable, r: Route)
    requires r in t.routes
    ensures r.targetRef in UsedIds(infra, TheIndex(infra), OfTable(t))
  {
    assert r.targetRef in Targets(t.routes);
  }

  lemma PartIsResource(infra: Infrastructure)
    ensures forall t <- infra.routeTables :: OfTable(t) in Resources(infra)
    ensures forall g <- infra.gateways :: OfGateway(g) in Resources(infra)
  {
    forall t | t in infra.routeTables ensures OfTable(t) in Resources(infra) {
      assert OfTable(t) in Tables(infra);
    }
    forall g | g in infra.gateways ensures OfGateway(g) in Resources(infra) {
      assert OfGateway(g) in Gateways(infra);
    }
  }

  lemma DanglingBreaks(infra: Infrastructure, r: CloudResource, s: CloudResource)
    requires LabelsApart(infra) && IsEmitted(infra, r) && s in Resources(infra) && !IsEmitted(infra, s)
    requires s.Id() in UsedIds(infra, TheIndex(infra), r)
    ensures !WellScoped(ProjectOf(infra))
  {
    if WellScoped(ProjectOf(infra)) {
      ScopedSoNoneDangling(infra);
    }
  }

  /** A table that routes to any dropped resource breaks the project: the address was indexed, but
      nothing is emitted at it. */
  lemma DroppedTargetBreaks(infra: Infrastructure, s: CloudResource, t: RouteTable, r: Route)
    requires LabelsApart(infra) && s in Resources(infra) && !IsEmitted(infra, s)
    requires t in infra.routeTables && t.networkId in TheIndex(infra) && r in t.routes && r.targetRef == s.Id()
    ensures !WellScoped(ProjectOf(infra))
  {
    PartIsResource(infra);
    RouteTargetUsed(infra, t, r);
    DanglingBreaks(infra, OfTable(t), s);
  }
}
