/**
 From the network to Terraform: nothing the assembler builds is dropped by the mappers, so the
 only way its Terraform fails to be well scoped is an image expression that names nothing.
 */
module TranslationToTerraform {
  import opened Wrappers
  import opened NetworkModel
  import opened CloudModel
  import opened Segments
  import opened CloudAssembler
  import opened AssemblyFacts
  import opened AssemblerTheorems
  import opened RouteTheorems
  import T = Terraform
  import opened TerraformMapping
  import opened TerraformScoping
  import opened TerraformTheorems

  lemma SubnetIdGiven(t: Translation, s: Subnet)
    requires t.Valid() && s in t.Subnets()
    ensures s.id != "" && s.id in TheIndex(t.Infra())
  {
    var v, k := SubnetOrigin(t, s);
    SubnetIndexed(t.Infra(), s);
  }

  lemma NetworkIdGiven(t: Translation, n: VirtualNetwork)
    requires t.Valid() && n in t.Networks()
    ensures n.id != "" && n.id in TheIndex(t.Infra())
  {
    var k := NetworkFrom(t.arch, t.domains, t.covers, t.names, n);
    NetworkIndexed(t.Infra(), n);
  }

  lemma SubnetEmitted(t: Translation, s: Subnet)
    requires t.Valid() && s in t.Subnets()
    ensures Emitted(TheIndex(t.Infra()), T.OfSubnet(s))
  {
    SubnetKnown(t, s);
    NetworkIdGiven(t, NetworkById(t.Networks(), s.networkId).value);
  }

  lemma TableEmitted(t: Translation, table: RouteTable)
    requires t.Valid() && table in t.Infra().routeTables
    ensures Emitted(TheIndex(t.Infra()), T.OfTable(table))
  {
    var n := TableFrom(t.Networks(), t.Subnets(), t.Gateways(), t.Networks(), table);
    NetworkIdGiven(t, n);
  }

  /** The gateways of a network: attached to it, or placed in one of its subnets. */
  predicate IsSited(networks: seq<VirtualNetwork>, subnets: seq<Subnet>, g: Gateway) {
    || (g.kind.Internet? && exists n <- networks :: g.networkId == Some(n.id))
    || (g.kind.Nat? && exists s <- subnets :: g.subnetId == Some(s.id))
  }

  lemma {:induction false} OwnGatewaySited(plan: Plan, networks: seq<VirtualNetwork>, subnets: seq<Subnet>, g: Gateway)
    requires g in NetworkGateways(plan, networks, subnets)
    ensures IsSited(networks, subnets, g)
  {
    var front, last := networks[..|networks| - 1], networks[|networks| - 1];
    if g in NetworkGateways(plan, front, subnets) {
      OwnGatewaySited(plan, front, subnets, g);
      if n :| n in front && g.networkId == Some(n.id) && g.kind.Internet? {
        assert n in networks;
      }
    } else {
      var own := SubnetsOf(subnets, last.id);
      var public := FirstPublic(own);
      assert last in networks && own[0] in subnets;
      if public.Some? {
        assert public.value in subnets;
      }
    }
  }

  lemma EmittedWhenFound(index: T.Index, g: Gateway, id: string)
    requires id != "" && id in index
    requires (g.kind.Internet? && g.networkId == Some(id)) || (g.kind.Nat? && g.subnetId == Some(id))
    ensures Emitted(index, T.OfGateway(g))
  {
  }

  lemma SitedEmitted(t: Translation, g: Gateway)
    requires t.Valid() && IsSited(t.Networks(), t.Subnets(), g)
    ensures Emitted(TheIndex(t.Infra()), T.OfGateway(g))
  {
    if g.kind.Internet? {
      var n :| n in t.Networks() && g.networkId == Some(n.id);
      NetworkIdGiven(t, n);
      EmittedWhenFound(TheIndex(t.Infra()), g, n.id);
    } else {
      var s :| s in t.Subnets() && g.subnetId == Some(s.id);
      SubnetIdGiven(t, s);
      EmittedWhenFound(TheIndex(t.Infra()), g, s.id);
    }
  }

  lemma NetworkIdsIndexed(t: Translation)
    requires t.Valid()
    ensures forall id <- NetworkIds(t.Networks()) :: id in TheIndex(t.Infra())
  {
    var networks := t.Networks();
    forall id | id in NetworkIds(networks) ensures id in TheIndex(t.Infra()) {
      var j :| 0 <= j < |networks| && NetworkIds(networks)[j] == id;
      NetworkIdGiven(t, networks[j]);
    }
  }

  lemma SharedGatewayEmitted(index: T.Index, plan: Plan, networks: seq<VirtualNetwork>, g: Gateway)
    requires g in SharedGateways(plan, networks) && forall id <- NetworkIds(networks) :: id in index
    ensures Emitted(index, T.OfGateway(g))
  {
  }

  lemma GatewayEmitted(t: Translation, g: Gateway)
    requires t.Valid() && g in t.Gateways()
    ensures Emitted(TheIndex(t.Infra()), T.OfGateway(g))
  {
    if g in NetworkGateways(t.plan, t.Networks(), t.Subnets()) {
      OwnGatewaySited(t.plan, t.Networks(), t.Subnets(), g);
      SitedEmitted(t, g);
    } else {
      NetworkIdsIndexed(t);
      SharedGatewayEmitted(TheIndex(t.Infra()), t.plan, t.Networks(), g);
    }
  }

  lemma {:induction false} GroupNetwork(nodes: seq<Node>, plan: Plan, networkId: string, names: Names, g: SecurityGroup)
    requires g in GroupsOf(nodes, plan, networkId, names)
    ensures g.networkId == networkId
  {
    if g in GroupsOf(nodes[..|nodes| - 1], plan, networkId, names) {
      GroupNetwork(nodes[..|nodes| - 1], plan, networkId, names, g);
    }
  }

  lemma GroupEmitted(t: Translation, g: SecurityGroup)
    requires t.Valid() && g in t.Groups()
    ensures Emitted(TheIndex(t.Infra()), T.OfGroup(g))
  {
    GroupNetwork(t.arch.nodes, t.plan, t.Networks()[0].id, t.names, g);
    NetworkIdGiven(t, t.Networks()[0]);
  }

  lemma InstanceEmitted(t: Translation, c: ComputeInstance)
    requires t.Valid() && c in t.Instances()
    ensures Emitted(TheIndex(t.Infra()), T.OfCompute(c))
  {
    InstanceKnown(t, c);
    SubnetIdGiven(t, SubnetById(t.Subnets(), c.subnetId.value).value);
  }

  lemma PartEmitted(t: Translation, r: T.CloudResource)
    requires t.Valid() && IsPart(t.Infra(), r)
    ensures Emitted(TheIndex(t.Infra()), r)
  {
    if r.OfSubnet? {
      SubnetEmitted(t, r.subnet);
    } else if r.OfTable? {
      TableEmitted(t, r.table);
    } else if r.OfGateway? {
      GatewayEmitted(t, r.gateway);
    } else if r.OfGroup? {
      GroupEmitted(t, r.group);
    } else if r.OfCompute? {
      InstanceEmitted(t, r.instance);
    }
  }

  /** The mappers drop nothing of an assembled architecture. */
  lemma AssembledEmitted(t: Translation, r: T.CloudResource)
    requires t.Valid() && r in T.Resources(t.Infra())
    ensures IsEmitted(t.Infra(), r)
  {
    ResourceIsPart(t.Infra(), r);
    PartEmitted(t, r);
  }

  lemma AssembledComplete(t: Translation)
    requires t.Valid()
    ensures NoneDangling(t.Infra())
  {
    forall r | r in T.Resources(t.Infra()) ensures IsEmitted(t.Infra(), r) {
      AssembledEmitted(t, r);
    }
  }

  /** The Terraform of an assembled architecture is well scoped, whatever the network, exactly when
      the image expressions of the plan name declared things. */
  lemma AssembledIsWellScopedIff(t: Translation)
    requires t.Valid() && ImagesReadable(t.Infra())
    ensures WellScoped(ProjectOf(t.Infra())) <==> ImagesResolve(t.Infra())
  {
    AssembledComplete(t);
    if ImagesResolve(t.Infra()) {
      ScopedWhenComplete(t.Infra());
    }
    if WellScoped(ProjectOf(t.Infra())) {
      ScopedSoImagesResolve(t.Infra());
    }
  }

  predicate PlainImages(plan: Plan) {
    forall id <- plan.entries :: !T.LooksLikeReference(plan.entries[id].image)
  }

  lemma PlainImage(t: Translation, c: ComputeInstance)
    requires t.Valid() && PlainImages(t.plan) && c in t.Instances()
    ensures !T.LooksLikeReference(c.image)
  {
    var node := InstanceFrom(t, t.arch.nodes, c);
  }

  /** Without image expressions in the plan there is nothing left to ask. */
  lemma AssembledIsWellScoped(t: Translation)
    requires t.Valid() && PlainImages(t.plan)
    ensures WellScoped(ProjectOf(t.Infra()))
  {
    forall c | c in t.Infra().compute ensures !HasExpression(t.Infra(), c) {
      PlainImage(t, c);
    }
    AssembledIsWellScopedIff(t);
  }
}
