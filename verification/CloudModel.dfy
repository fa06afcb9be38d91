/** The typed cloud architecture: what the assembler builds, the validators check and the
    Terraform generator prints. */
module CloudModel {
  import opened Wrappers
  import opened Addressing

  /** `private_ip` is free text in the source: either an address or something that does not parse. */
  datatype Ip = Parsed(address: Address) | Malformed(text: string)

  datatype VirtualNetwork = VirtualNetwork(
    id: string, cidr: SubnetSpec, secondaryCidrs: seq<SubnetSpec>, sourceNodeIds: seq<string>)

  datatype Subnet = Subnet(
    id: string, networkId: string, cidr: SubnetSpec, segmentId: string,
    isTransit: bool, isPublic: bool, availabilityZone: Option<string>)

  datatype Route = Route(destination: SubnetSpec, targetRef: string)

  datatype RouteTable = RouteTable(
    id: string, networkId: string, routes: seq<Route>, associatedSubnetIds: seq<string>)

  datatype GatewayType = Internet | Nat | Transit | Vpn | Peering | VirtualPrivate

  datatype Gateway = Gateway(
    id: string, kind: GatewayType, networkId: Option<string>, subnetId: Option<string>,
    peerNetworkIds: seq<string>)

  datatype NetworkInterface = NetworkInterface(
    id: string, subnetId: string, privateIp: Option<Ip>, sourceDestCheck: bool,
    primary: bool, sourceInterfaceId: string)

  datatype ComputeInstance = ComputeInstance(
    id: string, subnetId: Option<string>, interfaces: seq<NetworkInterface>,
    securityGroupIds: seq<string>, image: Option<string>, keyName: Option<string>,
    assignPublicIp: bool, isForwarder: bool, sourceNodeId: string)

  datatype Database = Database(
    id: string, subnetIds: seq<string>, securityGroupIds: seq<string>)

  datatype LoadBalancer = LoadBalancer(
    id: string, isApplication: bool, networkId: Option<string>, subnetIds: seq<string>,
    securityGroupIds: seq<string>, listeners: nat, targetComputeIds: seq<string>)

  datatype SecurityRule = SecurityRule(
    ingress: bool, cidrBlocks: seq<string>, sourceSecurityGroupId: Option<string>)

  datatype SecurityGroup = SecurityGroup(id: string, networkId: string, rules: seq<SecurityRule>)

  datatype Infrastructure = Infrastructure(
    networks: seq<VirtualNetwork>, subnets: seq<Subnet>, routeTables: seq<RouteTable>,
    gateways: seq<Gateway>, compute: seq<ComputeInstance>, databases: seq<Database>,
    loadBalancers: seq<LoadBalancer>, securityGroups: seq<SecurityGroup>)
  {
    /** The ids of every resource, in the order `all_resources` lists them. */
    function ResourceIds(): seq<string> {
      seq(|networks|, i requires 0 <= i < |networks| => networks[i].id)
      + seq(|subnets|, i requires 0 <= i < |subnets| => subnets[i].id)
      + seq(|routeTables|, i requires 0 <= i < |routeTables| => routeTables[i].id)
      + seq(|gateways|, i requires 0 <= i < |gateways| => gateways[i].id)
      + seq(|compute|, i requires 0 <= i < |compute| => compute[i].id)
      + seq(|databases|, i requires 0 <= i < |databases| => databases[i].id)
      + seq(|loadBalancers|, i requires 0 <= i < |loadBalancers| => loadBalancers[i].id)
      + seq(|securityGroups|, i requires 0 <= i < |securityGroups| => securityGroups[i].id)
    }
  }

  function SubnetsOf(subnets: seq<Subnet>, networkId: string): (r: seq<Subnet>)
    ensures forall s :: s in r <==> s in subnets && s.networkId == networkId
  {
    if subnets == [] then []
    else
      var rest := SubnetsOf(subnets[..|subnets| - 1], networkId);
      var last := subnets[|subnets| - 1];
      assert forall s :: s in subnets <==> s in subnets[..|subnets| - 1] || s == last;
      if last.networkId == networkId then rest + [last] else rest
  }

  /** A dictionary keyed by id keeps the last entry of each id. */
  function SubnetById(subnets: seq<Subnet>, id: string): (r: Option<Subnet>)
    ensures r.Some? ==> r.value in subnets && r.value.id == id
    ensures r.None? ==> forall s <- subnets :: s.id != id
  {
    if subnets == [] then None
    else if subnets[|subnets| - 1].id == id then Some(subnets[|subnets| - 1])
    else SubnetById(subnets[..|subnets| - 1], id)
  }

  function NetworkById(networks: seq<VirtualNetwork>, id: string): (r: Option<VirtualNetwork>)
    ensures r.Some? ==> r.value in networks && r.value.id == id
    ensures r.None? ==> forall n <- networks :: n.id != id
  {
    if networks == [] then None
    else if networks[|networks| - 1].id == id then Some(networks[|networks| - 1])
    else NetworkById(networks[..|networks| - 1], id)
  }

  // ---------- Places in the lists ----------

  /** The subnets of the network listed before this place. */
  function Before(subnets: seq<Subnet>, i: nat, networkId: string): set<nat>
    requires i <= |subnets|
  {
    set j: nat | j < i && subnets[j].networkId == networkId
  }

  lemma SiblingAt(subnets: seq<Subnet>, i: nat, networkId: string)
    requires i < |subnets| && subnets[i].networkId == networkId
    ensures |Before(subnets, i, networkId)| == |SubnetsOf(subnets[..i], networkId)| < |SubnetsOf(subnets, networkId)|
    ensures SubnetsOf(subnets[..i], networkId) + [subnets[i]] <= SubnetsOf(subnets, networkId)
  {
    SiblingCount(subnets, i, networkId);
    OneMoreSibling(subnets, i, networkId);
    SiblingsGrow(subnets, i + 1, networkId);
  }

  lemma {:induction false} SiblingsGrow(subnets: seq<Subnet>, i: nat, networkId: string)
    requires i <= |subnets|
    ensures SubnetsOf(subnets[..i], networkId) <= SubnetsOf(subnets, networkId)
  {
    if i < |subnets| {
      var front := subnets[..|subnets| - 1];
      SiblingsGrow(front, i, networkId);
      assert front[..i] == subnets[..i];
    } else {
      assert subnets[..i] == subnets;
    }
  }

  lemma {:induction false} SiblingCount(subnets: seq<Subnet>, i: nat, networkId: string)
    requires i <= |subnets|
    ensures |Before(subnets, i, networkId)| == |SubnetsOf(subnets[..i], networkId)|
  {
    if i == 0 {
      assert Before(subnets, 0, networkId) == {};
    } else {
      SiblingCount(subnets, i - 1, networkId);
      OneMoreBefore(subnets, i - 1, networkId);
      OneMoreSibling(subnets, i - 1, networkId);
    }
  }

  lemma OneMoreBefore(subnets: seq<Subnet>, i: nat, networkId: string)
    requires i < |subnets|
    ensures |Before(subnets, i + 1, networkId)|
            == |Before(subnets, i, networkId)| + if subnets[i].networkId == networkId then 1 else 0
  {
    var own := if subnets[i].networkId == networkId then {i} else {};
    assert Before(subnets, i + 1, networkId) == Before(subnets, i, networkId) + own;
  }

  lemma OneMoreSibling(subnets: seq<Subnet>, i: nat, networkId: string)
    requires i < |subnets|
    ensures SubnetsOf(subnets[..i + 1], networkId)
            == SubnetsOf(subnets[..i], networkId) + if subnets[i].networkId == networkId then [subnets[i]] else []
  {
    assert subnets[..i + 1][..i] == subnets[..i];
  }

  /** Each subnet of the list of a network stands somewhere among all of them, in the same order. */
  lemma {:induction false} SiblingPlace(subnets: seq<Subnet>, networkId: string, a: nat) returns (i: nat)
    requires a < |SubnetsOf(subnets, networkId)|
    ensures i < |subnets| && subnets[i].networkId == networkId && subnets[i] == SubnetsOf(subnets, networkId)[a]
    ensures |Before(subnets, i, networkId)| == a
  {
    var last := |subnets| - 1;
    var rest := SubnetsOf(subnets[..last], networkId);
    if a < |rest| {
      i := SiblingPlace(subnets[..last], networkId, a);
      assert Before(subnets[..last], i, networkId) == Before(subnets, i, networkId);
    } else {
      i := last;
      SiblingCount(subnets, last, networkId);
    }
  }

  lemma BeforeGrows(subnets: seq<Subnet>, i: nat, j: nat, networkId: string)
    requires i < j < |subnets| && subnets[i].networkId == networkId
    ensures |Before(subnets, i, networkId)| < |Before(subnets, j, networkId)|
  {
    var front := subnets[..j];
    SiblingAt(front, i, networkId);
    SiblingCount(subnets, j, networkId);
    assert Before(front, i, networkId) == Before(subnets, i, networkId);
  }

  predicate IsLastSubnet(subnets: seq<Subnet>, id: string, s: Subnet) {
    exists k | 0 <= k < |subnets| :: IsLastSubnetAt(subnets, id, s, k)
  }

  predicate IsLastSubnetAt(subnets: seq<Subnet>, id: string, s: Subnet, k: nat)
    requires k < |subnets|
  {
    subnets[k] == s && s.id == id && forall j | k < j < |subnets| :: subnets[j].id != id
  }

  /** The last of several subnets with one id. */
  lemma {:induction false} SubnetByIdExactly(subnets: seq<Subnet>, id: string, s: Subnet)
    ensures SubnetById(subnets, id) == Some(s) <==> IsLastSubnet(subnets, id, s)
  {
    if subnets != [] {
      var last := |subnets| - 1;
      var front := subnets[..last];
      SubnetByIdExactly(front, id, s);
      if subnets[last].id == id {
        assert subnets[last] == s ==> IsLastSubnetAt(subnets, id, s, last);
      } else {
        if k :| 0 <= k < |front| && IsLastSubnetAt(front, id, s, k) {
          assert IsLastSubnetAt(subnets, id, s, k);
        }
        if k :| 0 <= k < |subnets| && IsLastSubnetAt(subnets, id, s, k) {
          assert IsLastSubnetAt(front, id, s, k);
        }
      }
    }
  }

  predicate IsLastNetwork(networks: seq<VirtualNetwork>, id: string, n: VirtualNetwork) {
    exists k | 0 <= k < |networks| :: IsLastNetworkAt(networks, id, n, k)
  }

  predicate IsLastNetworkAt(networks: seq<VirtualNetwork>, id: string, n: VirtualNetwork, k: nat)
    requires k < |networks|
  {
    networks[k] == n && n.id == id && forall j | k < j < |networks| :: networks[j].id != id
  }

  lemma {:induction false} NetworkByIdExactly(networks: seq<VirtualNetwork>, id: string, n: VirtualNetwork)
    ensures NetworkById(networks, id) == Some(n) <==> IsLastNetwork(networks, id, n)
  {
    if networks != [] {
      var last := |networks| - 1;
      var front := networks[..last];
      NetworkByIdExactly(front, id, n);
      if networks[last].id == id {
        assert networks[last] == n ==> IsLastNetworkAt(networks, id, n, last);
      } else {
        if k :| 0 <= k < |front| && IsLastNetworkAt(front, id, n, k) {
          assert IsLastNetworkAt(networks, id, n, k);
        }
        if k :| 0 <= k < |networks| && IsLastNetworkAt(networks, id, n, k) {
          assert IsLastNetworkAt(front, id, n, k);
        }
      }
    }
  }
}
