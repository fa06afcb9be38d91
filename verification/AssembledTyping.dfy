/**
 From the network to Terraform, argument by argument: the references of every accepted assembly are
 well typed, unless a rule of the plan names something that is no security group.
 */
module AssembledTyping {
  import opened Wrappers
  import opened CloudModel
  import opened Segments
  import opened CloudAssembler
  import opened AssemblerTheorems
  import opened AssemblyMeaning
  import opened AssembledFields
  import FieldKinds
  import T = Terraform
  import opened TerraformMapping
  import opened TerraformScoping
  import opened TerraformTyping
  import opened TranslationToTerraform

  /** In the Terraform of every accepted assembly each argument refers to what it takes, exactly when
      no rule of the plan names another kind of resource as its peer group. */
  lemma AssembledTypedIff(t: Translation)
    requires Accepted(t)
    ensures WellTyped(ProjectOf(t.Infra())) <==> PeersAreGroups(t)
  {
    if PeersAreGroups(t) {
      AssembledFieldsRight(t);
      WellTypedWhenFieldsRight(t.Infra());
    }
    if WellTyped(ProjectOf(t.Infra())) {
      forall g, r | g in t.Groups() && r in g.rules ensures FieldKinds.RuleRight(t.Infra(), r) {
        PeerRight(t, g, r);
      }
    }
  }

  lemma PeerRight(t: Translation, g: SecurityGroup, r: SecurityRule)
    requires Accepted(t) && WellTyped(ProjectOf(t.Infra())) && g in t.Groups() && r in g.rules
    ensures FieldKinds.RuleRight(t.Infra(), r)
  {
    GroupEmitted(t, g);
    NoEmptyId(t);
    if r.sourceSecurityGroupId != Some("") {
      PeerMustBeGroup(t.Infra(), g, r);
    }
  }

  lemma NoEmptyId(t: Translation)
    requires t.Valid()
    ensures "" !in t.Infra().ResourceIds()
  {
    var infra := t.Infra();
    if "" in infra.ResourceIds() {
      KnownId(infra, "");
      IndexMeans(T.Resources(infra), "");
      var r :| r in T.Resources(infra) && r.Id() == "";
      ResourceIsPart(infra, r);
      PartIdGiven(t, r);
    }
  }

  lemma PartIdGiven(t: Translation, r: T.CloudResource)
    requires t.Valid() && IsPart(t.Infra(), r)
    ensures r.Id() != ""
  {
    match r
    case OfNetwork(n) => NetworkIdGiven(t, n);
    case OfSubnet(s) => SubnetIdGiven(t, s);
    case OfTable(table) => TableIdGiven(t, table);
    case OfGateway(g) => GatewayIdGiven(t, g);
    case OfGroup(g) => GroupsExactly(t, g);
    case OfCompute(c) => InstanceIdGiven(t, c);
    case OfDatabase(_) =>
    case OfBalancer(_) =>
  }

  lemma TableIdGiven(t: Translation, table: RouteTable)
    requires t.Valid() && table in t.Infra().routeTables
    ensures table.id != ""
  {
    TablesExactly(t, table);
  }

  lemma GatewayIdGiven(t: Translation, g: Gateway)
    requires t.Valid() && g in t.Gateways()
    ensures g.id != ""
  {
    GatewaysExactly(t, g);
  }

  lemma InstanceIdGiven(t: Translation, c: ComputeInstance)
    requires t.Valid() && c in t.Instances()
    ensures c.id != ""
  {
    var node := AssemblyMeaning.InstanceMeans(t, c);
  }

  /** In particular always, since the rules of a plan give blocks of addresses. */
  lemma AssembledTyped(t: Translation)
    requires Accepted(t) && PlainRules(t.plan)
    ensures WellTyped(ProjectOf(t.Infra()))
  {
    PlainRulesName(t);
    AssembledTypedIff(t);
  }
}
