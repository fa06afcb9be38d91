/**
 When construction of an assembled architecture raises: ids of different kinds start differently,
 so only the slugs of networks, instances and firewalls can make two of them coincide.
 */
module AssemblyAccepted {
  import opened Wrappers
  import opened Addressing
  import opened NetworkModel
  import opened CloudModel
  import opened Segments
  import opened CloudAssembler
  import opened AssemblyFacts
  import opened AssemblerTheorems

  // ---------- Lists of ids ----------

  /** Every id starts with one of these two letters. */
  predicate AllMarked(ids: seq<string>, marks: set<string>) {
    forall id <- ids :: |id| > 1 && id[..2] in marks
  }

  lemma ApartConcat(a: seq<string>, b: seq<string>)
    requires AllDistinct(a) && AllDistinct(b) && forall x <- a :: x !in b
    ensures AllDistinct(a + b)
  {
    forall j, k | 0 <= j < k < |a + b| ensures (a + b)[j] != (a + b)[k] {
      if j < |a| <= k {
        assert a[j] in a && b[k - |a|] in b;
      }
    }
  }

  lemma MarkedConcat(a: seq<string>, p: set<string>, b: seq<string>, q: set<string>)
    requires AllMarked(a, p) && AllMarked(b, q) && p !! q && AllDistinct(a) && AllDistinct(b)
    ensures AllMarked(a + b, p + q) && AllDistinct(a + b)
  {
    forall x | x in a ensures x !in b {
      assert x[..2] in p;
    }
    ApartConcat(a, b);
  }

  function TableIds(tables: seq<RouteTable>): (r: seq<string>)
    ensures |r| == |tables| && forall k | 0 <= k < |r| :: r[k] == tables[k].id
  {
    seq(|tables|, i requires 0 <= i < |tables| => tables[i].id)
  }

  function GatewayIds(gateways: seq<Gateway>): (r: seq<string>)
    ensures |r| == |gateways| && forall k | 0 <= k < |r| :: r[k] == gateways[k].id
  {
    seq(|gateways|, i requires 0 <= i < |gateways| => gateways[i].id)
  }

  function InstanceIds(compute: seq<ComputeInstance>): (r: seq<string>)
    ensures |r| == |compute| && forall k | 0 <= k < |r| :: r[k] == compute[k].id
  {
    seq(|compute|, i requires 0 <= i < |compute| => compute[i].id)
  }

  function FirewallIds(groups: seq<SecurityGroup>): (r: seq<string>)
    ensures |r| == |groups| && forall k | 0 <= k < |r| :: r[k] == groups[k].id
  {
    seq(|groups|, i requires 0 <= i < |groups| => groups[i].id)
  }

  lemma NetworkIdsAre(networks: seq<VirtualNetwork>)
    ensures NetworkIds(networks) == seq(|networks|, i requires 0 <= i < |networks| => networks[i].id)
  {
  }

  lemma SubnetIdsAre(subnets: seq<Subnet>)
    ensures SubnetIds(subnets) == seq(|subnets|, i requires 0 <= i < |subnets| => subnets[i].id)
  {
  }

  lemma IdsByKind(infra: Infrastructure)
    requires infra.databases == [] && infra.loadBalancers == []
    ensures infra.ResourceIds()
            == NetworkIds(infra.networks) + SubnetIds(infra.subnets) + TableIds(infra.routeTables)
               + GatewayIds(infra.gateways) + InstanceIds(infra.compute) + FirewallIds(infra.securityGroups)
  {
    NetworkIdsAre(infra.networks);
    SubnetIdsAre(infra.subnets);
  }

  // ---------- Route tables ----------

  lemma TablesStep(placed: seq<VirtualNetwork>, subnets: seq<Subnet>, gateways: seq<Gateway>,
                   networks: seq<VirtualNetwork>) returns (own: seq<string>)
    requires placed != []
    ensures TableIds(TablesOf(placed, subnets, gateways, networks))
            == TableIds(TablesOf(placed[..|placed| - 1], subnets, gateways, networks)) + own
    ensures own == [] || own == ["rt-" + placed[|placed| - 1].id]
  {
    var before, last := TablesOf(placed[..|placed| - 1], subnets, gateways, networks), placed[|placed| - 1];
    var itsSubnets := SubnetsOf(subnets, last.id);
    if itsSubnets == [] {
      own := [];
      assert before + [] == before;
    } else {
      own := ["rt-" + last.id];
      assert TableIds(before + [TableFor(last, itsSubnets, gateways, networks)]) == TableIds(before) + own;
    }
  }

  lemma {:induction false} TablesApart(placed: seq<VirtualNetwork>, subnets: seq<Subnet>, gateways: seq<Gateway>,
                                       networks: seq<VirtualNetwork>)
    requires AllDistinct(NetworkIds(placed))
    ensures AllDistinct(TableIds(TablesOf(placed, subnets, gateways, networks)))
    ensures AllMarked(TableIds(TablesOf(placed, subnets, gateways, networks)), {"rt"})
  {
    if placed != [] {
      var front, last := placed[..|placed| - 1], placed[|placed| - 1];
      var before := TableIds(TablesOf(front, subnets, gateways, networks));
      var own := TablesStep(placed, subnets, gateways, networks);
      FrontApart(placed);
      TablesApart(front, subnets, gateways, networks);
      forall id | id in before ensures id !in own {
        LastTable(front, subnets, gateways, networks, id, last);
      }
      ApartConcat(before, own);
      assert ("rt-" + last.id)[..2] == "rt";
    }
  }

  lemma FrontDistinct(ids: seq<string>, last: string)
    requires AllDistinct(ids + [last])
    ensures AllDistinct(ids) && last !in ids
  {
    var all := ids + [last];
    forall j | 0 <= j < |ids| ensures ids[j] != last {
      assert all[j] != all[|ids|];
    }
    forall j, k | 0 <= j < k < |ids| ensures ids[j] != ids[k] {
      assert all[j] != all[k];
    }
  }

  lemma IdInFront(networks: seq<VirtualNetwork>, n: VirtualNetwork)
    requires n in networks
    ensures n.id in NetworkIds(networks)
  {
    var j :| 0 <= j < |networks| && networks[j] == n;
    assert NetworkIds(networks)[j] == n.id;
  }

  lemma FrontApart(networks: seq<VirtualNetwork>)
    requires networks != [] && AllDistinct(NetworkIds(networks))
    ensures AllDistinct(NetworkIds(networks[..|networks| - 1]))
    ensures forall n <- networks[..|networks| - 1] :: n.id != networks[|networks| - 1].id
  {
    var front, last := networks[..|networks| - 1], networks[|networks| - 1];
    FrontDistinct(NetworkIds(front), last.id);
    forall n | n in front ensures n.id != last.id {
      IdInFront(front, n);
    }
  }

  lemma LastTable(front: seq<VirtualNetwork>, subnets: seq<Subnet>, gateways: seq<Gateway>, networks: seq<VirtualNetwork>,
                  id: string, last: VirtualNetwork)
    requires id in TableIds(TablesOf(front, subnets, gateways, networks)) && forall n <- front :: n.id != last.id
    ensures id != "rt-" + last.id
  {
    var n := TableNetwork(front, subnets, gateways, networks, id);
    SameAfter("rt-", n.id, last.id);
  }

  lemma SameAfter(prefix: string, a: string, b: string)
    ensures prefix + a == prefix + b ==> a == b
  {
    assert (prefix + a)[|prefix|..] == a && (prefix + b)[|prefix|..] == b;
  }

  lemma {:induction false} TableNetwork(placed: seq<VirtualNetwork>, subnets: seq<Subnet>, gateways: seq<Gateway>,
                                        networks: seq<VirtualNetwork>, id: string) returns (n: VirtualNetwork)
    requires id in TableIds(TablesOf(placed, subnets, gateways, networks))
    ensures n in placed && id == "rt-" + n.id
  {
    var front, last := placed[..|placed| - 1], placed[|placed| - 1];
    var before := TablesOf(front, subnets, gateways, networks);
    if id in TableIds(before) {
      n := TableNetwork(front, subnets, gateways, networks, id);
    } else {
      n := last;
    }
  }

  // ---------- Gateways ----------

  predicate IsOwnGatewayId(id: string, n: VirtualNetwork) {
    id == "gw-igw-" + n.id || id == "gw-nat-" + n.id
  }

  lemma OwnIdsApart(a: string, m: VirtualNetwork, n: VirtualNetwork)
    requires IsOwnGatewayId(a, m) && m.id != n.id
    ensures !IsOwnGatewayId(a, n)
  {
    SameAfter("gw-igw-", m.id, n.id);
    SameAfter("gw-nat-", m.id, n.id);
    assert ("gw-igw-" + m.id)[3] == 'i' && ("gw-igw-" + n.id)[3] == 'i';
    assert ("gw-nat-" + m.id)[3] == 'n' && ("gw-nat-" + n.id)[3] == 'n';
  }

  lemma OwnGatewayIds(plan: Plan, n: VirtualNetwork, subnets: seq<Subnet>)
    requires subnets != []
    ensures AllDistinct(GatewayIds(OwnGateways(plan, n, subnets)))
    ensures forall id <- GatewayIds(OwnGateways(plan, n, subnets)) :: IsOwnGatewayId(id, n)
  {
    assert ("gw-igw-" + n.id)[3] == 'i' && ("gw-nat-" + n.id)[3] == 'n';
  }

  lemma GatewayIdsConcat(a: seq<Gateway>, b: seq<Gateway>)
    ensures GatewayIds(a + b) == GatewayIds(a) + GatewayIds(b)
  {
  }

  lemma {:induction false} OwnGatewayFrom(plan: Plan, networks: seq<VirtualNetwork>, subnets: seq<Subnet>, id: string)
    returns (n: VirtualNetwork)
    requires id in GatewayIds(NetworkGateways(plan, networks, subnets))
    ensures n in networks && IsOwnGatewayId(id, n)
  {
    var front, last := networks[..|networks| - 1], networks[|networks| - 1];
    var before, own := NetworkGateways(plan, front, subnets), SubnetsOf(subnets, last.id);
    if id in GatewayIds(before) {
      n := OwnGatewayFrom(plan, front, subnets, id);
    } else {
      n := last;
      OwnGatewayIds(plan, last, own);
      GatewayIdsConcat(before, OwnGateways(plan, last, own));
    }
  }

  lemma {:induction false} NetworkGatewaysApart(plan: Plan, networks: seq<VirtualNetwork>, subnets: seq<Subnet>)
    requires AllDistinct(NetworkIds(networks))
    ensures AllDistinct(GatewayIds(NetworkGateways(plan, networks, subnets)))
  {
    if networks != [] {
      var front, last := networks[..|networks| - 1], networks[|networks| - 1];
      var before, own := NetworkGateways(plan, front, subnets), SubnetsOf(subnets, last.id);
      FrontApart(networks);
      NetworkGatewaysApart(plan, front, subnets);
      if own != [] {
        OwnGatewayIds(plan, last, own);
        GatewayIdsConcat(before, OwnGateways(plan, last, own));
        forall id | id in GatewayIds(before) ensures id !in GatewayIds(OwnGateways(plan, last, own)) {
          var n := OwnGatewayFrom(plan, front, subnets, id);
          OwnIdsApart(id, n, last);
        }
        ApartConcat(GatewayIds(before), GatewayIds(OwnGateways(plan, last, own)));
      } else {
        assert before + [] == before;
      }
    }
  }

  lemma SharedIds(plan: Plan, networks: seq<VirtualNetwork>)
    ensures var ids := GatewayIds(SharedGateways(plan, networks));
            AllDistinct(ids) && forall id <- ids :: IsSharedId(id)
  {
    assert "gw-peering"[3] == 'p' && "gw-transit"[3] == 't';
  }

  lemma OwnIsNotShared(id: string, n: VirtualNetwork)
    requires IsOwnGatewayId(id, n)
    ensures !IsSharedId(id) && |id| > 1 && id[..2] == "gw"
  {
    assert ("gw-igw-" + n.id)[3] == 'i' && ("gw-nat-" + n.id)[3] == 'n';
    assert "gw-peering"[3] == 'p' && "gw-transit"[3] == 't';
    assert ("gw-igw-" + n.id)[..2] == "gw" && ("gw-nat-" + n.id)[..2] == "gw";
  }

  predicate IsSharedId(id: string) {
    id == "gw-peering" || id == "gw-transit"
  }

  lemma SharedMarked(ids: seq<string>)
    requires forall id <- ids :: IsSharedId(id)
    ensures AllMarked(ids, {"gw"})
  {
    assert "gw-peering"[..2] == "gw" && "gw-transit"[..2] == "gw";
  }

  lemma OwnMarked(plan: Plan, networks: seq<VirtualNetwork>, subnets: seq<Subnet>)
    ensures AllMarked(GatewayIds(NetworkGateways(plan, networks, subnets)), {"gw"})
    ensures forall id <- GatewayIds(NetworkGateways(plan, networks, subnets)) :: !IsSharedId(id)
  {
    forall id | id in GatewayIds(NetworkGateways(plan, networks, subnets))
      ensures !IsSharedId(id) && |id| > 1 && id[..2] == "gw"
    {
      var n := OwnGatewayFrom(plan, networks, subnets, id);
      OwnIsNotShared(id, n);
    }
  }

  lemma GatewaysApart(plan: Plan, networks: seq<VirtualNetwork>, subnets: seq<Subnet>)
    requires AllDistinct(NetworkIds(networks))
    ensures var ids := GatewayIds(NetworkGateways(plan, networks, subnets) + SharedGateways(plan, networks));
            AllDistinct(ids) && AllMarked(ids, {"gw"})
  {
    var own, shared := NetworkGateways(plan, networks, subnets), SharedGateways(plan, networks);
    NetworkGatewaysApart(plan, networks, subnets);
    OwnMarked(plan, networks, subnets);
    SharedIds(plan, networks);
    SharedMarked(GatewayIds(shared));
    GatewayIdsConcat(own, shared);
    ApartConcat(GatewayIds(own), GatewayIds(shared));
  }

  // ---------- The other kinds ----------

  lemma NetworksMarked(t: Translation)
    requires t.Valid()
    ensures AllMarked(NetworkIds(t.Networks()), {"vp"})
  {
    forall id | id in NetworkIds(t.Networks()) ensures |id| > 1 && id[..2] == "vp" {
      var j :| 0 <= j < |t.Networks()| && NetworkIds(t.Networks())[j] == id;
      NetworkMarked(t, t.Networks()[j]);
    }
  }

  lemma NetworkMarked(t: Translation, n: VirtualNetwork)
    requires t.Valid() && n in t.Networks()
    ensures |n.id| > 1 && n.id[..2] == "vp"
  {
    var k := NetworkFrom(t.arch, t.domains, t.covers, t.names, n);
  }

  lemma SubnetsMarked(t: Translation)
    requires t.Valid()
    ensures AllMarked(SubnetIds(t.Subnets()), {"sn"})
  {
    forall id | id in SubnetIds(t.Subnets()) ensures |id| > 1 && id[..2] == "sn" {
      var j :| 0 <= j < |t.Subnets()| && SubnetIds(t.Subnets())[j] == id;
      SubnetMarked(t, t.Subnets()[j]);
    }
  }

  lemma SubnetMarked(t: Translation, s: Subnet)
    requires t.Valid() && s in t.Subnets()
    ensures |s.id| > 1 && s.id[..2] == "sn"
  {
    var v, k := SubnetOrigin(t, s);
    IsMarked("sn-", t.names.cidrSlug(v.subnet));
  }

  lemma IsMarked(mark: string, rest: string)
    requires |mark| == 3
    ensures |mark + rest| > 1 && (mark + rest)[..2] == mark[..2]
  {
  }

  lemma InstancesMarked(t: Translation)
    requires t.Valid()
    ensures AllMarked(InstanceIds(t.Instances()), {"c-"})
  {
    forall id | id in InstanceIds(t.Instances()) ensures |id| > 1 && id[..2] == "c-" {
      var j :| 0 <= j < |t.Instances()| && InstanceIds(t.Instances())[j] == id;
      InstanceMarked(t, t.Instances()[j]);
    }
  }

  lemma InstanceMarked(t: Translation, c: ComputeInstance)
    requires t.Valid() && c in t.Instances()
    ensures |c.id| > 1 && c.id[..2] == "c-"
  {
    var node := InstanceFrom(t, t.arch.nodes, c);
  }

  lemma {:induction false} GroupsMarked(nodes: seq<Node>, plan: Plan, networkId: string, names: Names)
    ensures AllMarked(FirewallIds(GroupsOf(nodes, plan, networkId, names)), {"sg"})
  {
    if nodes != [] {
      GroupsMarked(nodes[..|nodes| - 1], plan, networkId, names);
      assert ("sg-" + names.slug(nodes[|nodes| - 1].id))[..2] == "sg";
    }
  }

  /** The slugs of routers' names, of instances' nodes and of firewalls are apart, each among its own. */
  predicate SlugsApart(t: Translation)
    requires |t.covers| == |t.domains|
  {
    && AllDistinct(NetworkIds(t.Networks())) && AllDistinct(InstanceIds(t.Instances()))
    && AllDistinct(FirewallIds(t.Groups()))
  }

  lemma GroupsOfAssembly(t: Translation)
    requires t.Valid()
    ensures AllMarked(FirewallIds(t.Groups()), {"sg"})
  {
    if t.Networks() != [] {
      GroupsMarked(t.arch.nodes, t.plan, t.Networks()[0].id, t.names);
    }
  }

  /** Six lists of ids whose marks differ. */
  lemma SixKinds(n: seq<string>, s: seq<string>, r: seq<string>, g: seq<string>, c: seq<string>, p: seq<string>)
    requires AllMarked(n, {"vp"}) && AllMarked(s, {"sn"}) && AllMarked(r, {"rt"})
    requires AllMarked(g, {"gw"}) && AllMarked(c, {"c-"}) && AllMarked(p, {"sg"})
    requires AllDistinct(n) && AllDistinct(s) && AllDistinct(r) && AllDistinct(g) && AllDistinct(c) && AllDistinct(p)
    ensures AllDistinct(n + s + r + g + c + p)
  {
    MarksDiffer();
    MarkedConcat(n, {"vp"}, s, {"sn"});
    MarkedConcat(n + s, {"vp", "sn"}, r, {"rt"});
    MarkedConcat(n + s + r, {"vp", "sn", "rt"}, g, {"gw"});
    MarkedConcat(n + s + r + g, {"vp", "sn", "rt", "gw"}, c, {"c-"});
    MarkedConcat(n + s + r + g + c, {"vp", "sn", "rt", "gw", "c-"}, p, {"sg"});
  }

  lemma MarksDiffer()
    ensures {"vp"} !! {"sn"} && {"vp", "sn"} !! {"rt"} && {"vp", "sn", "rt"} !! {"gw"}
    ensures {"vp", "sn", "rt", "gw"} !! {"c-"} && {"vp", "sn", "rt", "gw", "c-"} !! {"sg"}
    ensures {"vp"} + {"sn"} == {"vp", "sn"} && {"vp", "sn"} + {"rt"} == {"vp", "sn", "rt"}
    ensures {"vp", "sn", "rt"} + {"gw"} == {"vp", "sn", "rt", "gw"}
    ensures {"vp", "sn", "rt", "gw"} + {"c-"} == {"vp", "sn", "rt", "gw", "c-"}
  {
  }

  // ---------- Subnets ----------

  /** No two segments of the list have one subnet. */
  predicate SubnetsDiffer(segments: seq<SegmentView>) {
    forall j, k :: 0 <= j < k < |segments| ==> segments[j].subnet != segments[k].subnet
  }

  lemma {:induction false} OwnedDiffer(views: seq<SegmentView>, router: string, routers: seq<string>)
    requires routers != [] && SubnetsDiffer(views)
    ensures SubnetsDiffer(OwnedAmong(views, router, routers))
  {
    if views != [] {
      var front, last := views[..|views| - 1], views[|views| - 1];
      OwnedDiffer(front, router, routers);
      var before := OwnedAmong(front, router, routers);
      forall j | 0 <= j < |before| ensures before[j].subnet != last.subnet {
        OwnedAmongMeans(front, router, routers, before[j]);
        var k :| 0 <= k < |front| && front[k] == before[j];
        assert views[k] == front[k];
      }
    }
  }

  lemma DomainDiffers(t: Translation, k: nat)
    requires t.Valid() && k < |t.domains|
    ensures SubnetsDiffer(t.domains[k].segments)
  {
    forall i, j | 0 <= i < j < |t.segments| ensures t.segments[i].subnet != t.segments[j].subnet {
      assert t.found[i].subnet != t.found[j].subnet;
    }
    DomainAt(t, k);
    var routers := Routers(t.arch.nodes);
    if routers != [] {
      OwnedDiffer(t.segments, routers[k], routers);
    }
  }

  lemma {:induction false} ForwardersDiffer(nodes: seq<Node>)
    requires forall j, k :: 0 <= j < k < |nodes| ==> nodes[j].id != nodes[k].id
    ensures AllDistinct(ForwarderIds(nodes))
  {
    if nodes != [] {
      var front, last := nodes[..|nodes| - 1], nodes[|nodes| - 1];
      ForwardersDiffer(front);
      forall id | id in ForwarderIds(front) ensures id != last.id {
        var n :| n in front && n.IsL3Forwarder() && n.id == id;
        var j :| 0 <= j < |front| && front[j] == n;
        assert nodes[j].id != nodes[|nodes| - 1].id;
      }
      ApartConcat(ForwarderIds(front), [last.id]);
    }
  }

  lemma RoutersDiffer(t: Translation)
    requires t.Valid()
    ensures AllDistinct(Routers(t.arch.nodes))
  {
    ForwardersDiffer(t.arch.nodes);
    DistinctPermuted(ForwarderIds(t.arch.nodes), Routers(t.arch.nodes));
  }

  /** A segment is in one domain only, counted by position. */
  lemma OneDomain(t: Translation, v: SegmentView, j: nat, k: nat)
    requires t.Valid() && j < |t.domains| && k < |t.domains|
    requires v in t.domains[j].segments && v in t.domains[k].segments
    ensures j == k
  {
    InDomain(t, j, v);
    InDomain(t, k, v);
    var routers := Routers(t.arch.nodes);
    if routers != [] {
      SoleOwner(v.nodeIds, routers, routers[j], routers[k]);
      RoutersDiffer(t);
    }
  }

  /** The subnets of the first domains. */
  function FirstSubnets(t: Translation, count: nat): seq<Subnet>
    requires count <= |t.domains| == |t.covers|
  {
    AllSubnets(t.arch, t.domains[..count], t.covers[..count], t.names)
  }

  lemma SubnetsStep(t: Translation, k: nat)
    requires k < |t.domains| == |t.covers|
    ensures FirstSubnets(t, k + 1) == FirstSubnets(t, k) + DomainSubnets(t.arch, t.domains[k], t.covers[k], t.names)
  {
    assert t.domains[..k + 1][..k] == t.domains[..k] && t.covers[..k + 1][..k] == t.covers[..k];
  }

  lemma SubnetIdsConcat(a: seq<Subnet>, b: seq<Subnet>)
    ensures SubnetIds(a + b) == SubnetIds(a) + SubnetIds(b)
  {
  }

  lemma SlugOfSubnet(v: SegmentView, w: SegmentView, n: string, m: string, names: Names)
    requires SubnetFor(v, n, names).id == SubnetFor(w, m, names).id
    ensures names.cidrSlug(v.subnet) == names.cidrSlug(w.subnet)
  {
    SameAfter("sn-", names.cidrSlug(v.subnet), names.cidrSlug(w.subnet));
  }

  lemma DomainSubnetsApart(t: Translation, k: nat)
    requires t.Valid() && NamesApart(t) && k < |t.domains|
    ensures AllDistinct(SubnetIds(DomainSubnets(t.arch, t.domains[k], t.covers[k], t.names)))
  {
    var own, segments := DomainSubnets(t.arch, t.domains[k], t.covers[k], t.names), t.domains[k].segments;
    DomainDiffers(t, k);
    forall i, j | 0 <= i < j < |own| ensures own[i].id != own[j].id {
      var n := NetworkId(t.arch, t.domains[k].routerId, t.names);
      InDomain(t, k, segments[i]);
      InDomain(t, k, segments[j]);
      if own[i].id == own[j].id {
        SlugOfSubnet(segments[i], segments[j], n, n, t.names);
      }
    }
  }

  lemma LaterSubnetApart(t: Translation, k: nat, id: string)
    requires t.Valid() && NamesApart(t) && k < |t.domains| && id in SubnetIds(FirstSubnets(t, k))
    ensures id !in SubnetIds(DomainSubnets(t.arch, t.domains[k], t.covers[k], t.names))
  {
    var own := DomainSubnets(t.arch, t.domains[k], t.covers[k], t.names);
    var a :| 0 <= a < |FirstSubnets(t, k)| && SubnetIds(FirstSubnets(t, k))[a] == id;
    var j, v := SubnetFrom(t.arch, t.domains[..k], t.covers[..k], t.names, FirstSubnets(t, k)[a]);
    forall b | 0 <= b < |own| ensures own[b].id != id {
      var w := t.domains[k].segments[b];
      InDomain(t, j, v);
      InDomain(t, k, w);
      if own[b].id == id {
        SlugOfSubnet(v, w, NetworkId(t.arch, t.domains[j].routerId, t.names),
                     NetworkId(t.arch, t.domains[k].routerId, t.names), t.names);
        SameSegment(t, v, w);
        OneDomain(t, v, j, k);
      }
    }
  }

  lemma {:induction false} FirstSubnetsApart(t: Translation, k: nat)
    requires t.Valid() && NamesApart(t) && k <= |t.domains|
    ensures AllDistinct(SubnetIds(FirstSubnets(t, k)))
  {
    if k > 0 {
      FirstSubnetsApart(t, k - 1);
      DomainSubnetsApart(t, k - 1);
      SubnetsStep(t, k - 1);
      var own := DomainSubnets(t.arch, t.domains[k - 1], t.covers[k - 1], t.names);
      SubnetIdsConcat(FirstSubnets(t, k - 1), own);
      forall id | id in SubnetIds(FirstSubnets(t, k - 1)) ensures id !in SubnetIds(own) {
        LaterSubnetApart(t, k - 1, id);
      }
      ApartConcat(SubnetIds(FirstSubnets(t, k - 1)), SubnetIds(own));
    }
  }

  /** When the slugs of blocks differ, so do the ids of all subnets. */
  lemma SubnetsApart(t: Translation)
    requires t.Valid() && NamesApart(t)
    ensures AllDistinct(SubnetIds(t.Subnets()))
  {
    FirstSubnetsApart(t, |t.domains|);
    assert t.domains[..|t.domains|] == t.domains && t.covers[..|t.covers|] == t.covers;
  }

  // ---------- Acceptance ----------

  lemma KindsApart(t: Translation)
    requires t.Valid() && NamesApart(t) && SlugsApart(t)
    ensures AllDistinct(t.Infra().ResourceIds())
  {
    IdsByKind(t.Infra());
    NetworksMarked(t);
    SubnetsMarked(t);
    SubnetsApart(t);
    TablesApart(t.Networks(), t.Subnets(), t.Gateways(), t.Networks());
    GatewaysApart(t.plan, t.Networks(), t.Subnets());
    InstancesMarked(t);
    GroupsOfAssembly(t);
    SixKinds(NetworkIds(t.Networks()), SubnetIds(t.Subnets()), TableIds(t.Infra().routeTables), GatewayIds(t.Gateways()),
             InstanceIds(t.Instances()), FirewallIds(t.Groups()));
  }

  lemma PartDistinct(a: seq<string>, part: seq<string>, b: seq<string>)
    requires AllDistinct(a + part + b)
    ensures AllDistinct(part)
  {
    forall j, k | 0 <= j < k < |part| ensures part[j] != part[k] {
      assert (a + part + b)[|a| + j] == part[j] && (a + part + b)[|a| + k] == part[k];
    }
  }

  lemma KindsDistinct(n: seq<string>, s: seq<string>, r: seq<string>, g: seq<string>, c: seq<string>, p: seq<string>)
    requires AllDistinct(n + s + r + g + c + p)
    ensures AllDistinct(n) && AllDistinct(c) && AllDistinct(p)
  {
    assert n + s + r + g + c + p == [] + n + (s + r + g + c + p);
    PartDistinct([], n, s + r + g + c + p);
    PartDistinct(n + s + r + g, c, p);
    assert n + s + r + g + c + p == (n + s + r + g + c) + p + [];
    PartDistinct(n + s + r + g + c, p, []);
  }

  /** With distinct slugs of blocks, an assembly is accepted exactly when the slugs of its networks,
      of its instances and of its firewalls are apart, each among its own kind. */
  lemma AcceptedIffSlugsApart(t: Translation)
    requires t.Valid() && NamesApart(t)
    ensures Admissible(t.Infra()) <==> SlugsApart(t)
  {
    AcceptedIffIdsDistinct(t);
    if SlugsApart(t) {
      KindsApart(t);
    }
    if AllDistinct(t.Infra().ResourceIds()) {
      IdsByKind(t.Infra());
      KindsDistinct(NetworkIds(t.Networks()), SubnetIds(t.Subnets()), TableIds(t.Infra().routeTables),
                    GatewayIds(t.Gateways()), InstanceIds(t.Instances()), FirewallIds(t.Groups()));
    }
  }
}
