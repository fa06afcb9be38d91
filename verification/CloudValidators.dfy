/**
 The cloud validators: the gate between the translation and the generators. Each method
 appends to an issue list as it walks the architecture; its contract says exactly which
 issues are reported. The lemmas say what an empty list of errors then guarantees.
 */
module CloudValidators {
  import opened Wrappers
  import opened Addressing
  import opened CloudModel
  import opened Counting

  datatype Issue =
    | SubnetOutsideNetwork(subnetId: string, networkId: string)
    | SubnetTooSmall(subnetId: string)
    | OverlappingSubnets(first: string, second: string)
    | ComputeNotPlaced(instanceId: string)
    | AddressOutsideSubnet(instanceId: string, subnetId: string)
    | DuplicateAddress(previous: string, instanceId: string)
    | AwsReservedAddress(instanceId: string)
    | ForwarderWithSourceDestCheck(instanceId: string)
    | RouteTargetMissing(tableId: string)
    | DuplicateRouteDestination(tableId: string)
    | SubnetWithoutRouteTable(subnetId: string)
    | NatGatewayWithoutSubnet(gatewayId: string)
    | PeeringArity(gatewayId: string)
  {
    /** Errors block generation; the two warnings do not. */
    predicate IsError() {
      !SubnetTooSmall? && !SubnetWithoutRouteTable?
    }
  }

  predicate NoErrors(issues: seq<Issue>) {
    forall i <- issues :: !i.IsError()
  }

  // ---------- Subnets ----------

  predicate InsideNetwork(s: Subnet, n: VirtualNetwork) {
    s.cidr.IsSubnetOf(n.cidr) || exists secondary <- n.secondaryCidrs :: s.cidr.IsSubnetOf(secondary)
  }

  predicate OutsideItsNetwork(s: Subnet, networks: seq<VirtualNetwork>) {
    var n := NetworkById(networks, s.networkId);
    n.Some? && !InsideNetwork(s, n.value)
  }

  /** What one subnet contributes on its own. */
  ghost predicate SubnetIssue(i: Issue, subnets: seq<Subnet>, networks: seq<VirtualNetwork>) {
    exists s <- subnets ::
      NetworkById(networks, s.networkId).Some?
      && (|| (i == SubnetOutsideNetwork(s.id, s.networkId) && OutsideItsNetwork(s, networks))
          || (i == SubnetTooSmall(s.id) && s.cidr.UsableHostCount() < 2))
  }

  /** Subnet `a` overlaps a later one, before position `end`. */
  ghost predicate OverlapWith(i: Issue, siblings: seq<Subnet>, a: nat, end: nat)
    requires a < |siblings| && end <= |siblings|
  {
    exists b :: a < b < end && siblings[a].cidr.Overlaps(siblings[b].cidr)
                && i == OverlappingSubnets(siblings[a].id, siblings[b].id)
  }

  /** Two subnets of one list overlap. */
  ghost predicate OverlapIssue(i: Issue, siblings: seq<Subnet>) {
    exists a :: 0 <= a < |siblings| && OverlapWith(i, siblings, a, |siblings|)
  }

  ghost predicate OverlapReported(i: Issue, subnets: seq<Subnet>) {
    exists n :: OverlapIssue(i, SubnetsOf(subnets, n))
  }

  /** The report lists every misplaced, undersized or overlapping subnet, and nothing else. */
  ghost predicate SubnetReport(issues: seq<Issue>, infra: Infrastructure) {
    forall i :: i in issues <==>
                SubnetIssue(i, infra.subnets, infra.networks) || OverlapReported(i, infra.subnets)
  }

  method PlacementIssues(subnets: seq<Subnet>, networks: seq<VirtualNetwork>) returns (issues: seq<Issue>)
    ensures forall i :: i in issues <==> SubnetIssue(i, subnets, networks)
  {
    issues := [];
    for k := 0 to |subnets|
      invariant forall i :: i in issues <==> SubnetIssue(i, subnets[..k], networks)
    {
      var s := subnets[k];
      assert subnets[..k + 1] == subnets[..k] + [s];
      var n := NetworkById(networks, s.networkId);
      if n.Some? {
        if !InsideNetwork(s, n.value) {
          issues := issues + [SubnetOutsideNetwork(s.id, n.value.id)];
        }
        if s.cidr.UsableHostCount() < 2 {
          issues := issues + [SubnetTooSmall(s.id)];
        }
      }
    }
    assert subnets[..|subnets|] == subnets;
  }

  method GroupByNetwork(subnets: seq<Subnet>) returns (byNetwork: map<string, seq<Subnet>>)
    ensures forall n :: n in byNetwork <==> exists s <- subnets :: s.networkId == n
    ensures forall n <- byNetwork :: byNetwork[n] == SubnetsOf(subnets, n)
  {
    byNetwork := map[];
    for k := 0 to |subnets|
      invariant forall n :: n in byNetwork <==> exists s <- subnets[..k] :: s.networkId == n
      invariant forall n <- byNetwork :: byNetwork[n] == SubnetsOf(subnets[..k], n)
    {
      var s := subnets[k];
      assert subnets[..k + 1][..k] == subnets[..k];
      assert subnets[..k + 1] == subnets[..k] + [s];
      if s.networkId !in byNetwork {
        NoSiblings(subnets[..k], s.networkId);
        byNetwork := byNetwork[s.networkId := []];
      }
      byNetwork := byNetwork[s.networkId := byNetwork[s.networkId] + [s]];
    }
    assert subnets[..|subnets|] == subnets;
  }

  lemma {:induction false} NoSiblings(subnets: seq<Subnet>, n: string)
    requires forall s <- subnets :: s.networkId != n
    ensures SubnetsOf(subnets, n) == []
  {
    if subnets != [] {
      NoSiblings(subnets[..|subnets| - 1], n);
      assert subnets[|subnets| - 1] in subnets;
    }
  }

  method OverlapsAmong(siblings: seq<Subnet>) returns (issues: seq<Issue>)
    ensures forall i :: i in issues <==> OverlapIssue(i, siblings)
  {
    issues := [];
    for j := 0 to |siblings|
      invariant forall i :: i in issues <==> OverlapBefore(i, siblings, j)
    {
      for k := j + 1 to |siblings|
        invariant forall i :: i in issues <==> OverlapBefore(i, siblings, j) || OverlapWith(i, siblings, j, k)
      {
        if siblings[j].cidr.Overlaps(siblings[k].cidr) {
          issues := issues + [OverlappingSubnets(siblings[j].id, siblings[k].id)];
        }
      }
    }
  }

  ghost predicate OverlapBefore(i: Issue, siblings: seq<Subnet>, j: nat)
    requires j <= |siblings|
  {
    exists a :: 0 <= a < j && OverlapWith(i, siblings, a, |siblings|)
  }

  method ValidateSubnets(infra: Infrastructure) returns (issues: seq<Issue>)
    ensures SubnetReport(issues, infra)
  {
    var alone := PlacementIssues(infra.subnets, infra.networks);
    var byNetwork := GroupByNetwork(infra.subnets);
    var overlaps := AllOverlaps(byNetwork);
    issues := alone + overlaps;
    forall i ensures OverlapIn(i, byNetwork, byNetwork.Keys) <==> OverlapReported(i, infra.subnets) {
      GroupedOverlaps(i, infra.subnets, byNetwork);
    }
  }

  lemma GroupedOverlaps(i: Issue, subnets: seq<Subnet>, byNetwork: map<string, seq<Subnet>>)
    requires forall n :: n in byNetwork <==> exists s <- subnets :: s.networkId == n
    requires forall n <- byNetwork :: byNetwork[n] == SubnetsOf(subnets, n)
    ensures OverlapIn(i, byNetwork, byNetwork.Keys) <==> OverlapReported(i, subnets)
  {
    if n :| OverlapIssue(i, SubnetsOf(subnets, n)) {
      if n !in byNetwork {
        NoSiblings(subnets, n);
      }
      assert OverlapIssue(i, byNetwork[n]);
    }
  }

  method AllOverlaps(byNetwork: map<string, seq<Subnet>>) returns (issues: seq<Issue>)
    ensures forall i :: i in issues <==> OverlapIn(i, byNetwork, byNetwork.Keys)
  {
    issues := [];
    var pending := byNetwork.Keys;
    while pending != {}
      invariant pending <= byNetwork.Keys
      invariant forall i :: i in issues <==> OverlapIn(i, byNetwork, byNetwork.Keys - pending)
    {
      var n :| n in pending;
      var found := OverlapsAmong(byNetwork[n]);
      issues := issues + found;
      pending := pending - {n};
    }
  }

  ghost predicate OverlapIn(i: Issue, byNetwork: map<string, seq<Subnet>>, done: set<string>)
    requires done <= byNetwork.Keys
  {
    exists n <- done :: OverlapIssue(i, byNetwork[n])
  }

  function AddressCount(subnets: seq<Subnet>): nat {
    if subnets == [] then 0 else subnets[0].cidr.Size() + AddressCount(subnets[1..])
  }

  /** An error-free report for a network without secondary blocks: its subnets are parts of the
      network, pairwise share no address, and together hold no more addresses than it has. */
  lemma ErrorFreeSubnetsPartition(issues: seq<Issue>, infra: Infrastructure, n: VirtualNetwork)
    requires SubnetReport(issues, infra) && NoErrors(issues)
    requires NetworkById(infra.networks, n.id) == Some(n) && n.secondaryCidrs == []
    ensures forall s <- infra.subnets :: s.networkId == n.id ==> s.cidr.IsSubnetOf(n.cidr)
    ensures var siblings := SubnetsOf(infra.subnets, n.id);
            && (forall j, k :: 0 <= j < k < |siblings| ==> NoSharedAddress(siblings[j].cidr, siblings[k].cidr))
            && AddressCount(siblings) <= n.cidr.Size()
  {
    forall s | s in infra.subnets && s.networkId == n.id ensures s.cidr.IsSubnetOf(n.cidr) {
      if !s.cidr.IsSubnetOf(n.cidr) {
        assert SubnetIssue(SubnetOutsideNetwork(s.id, s.networkId), infra.subnets, infra.networks);
      }
    }
    var siblings := SubnetsOf(infra.subnets, n.id);
    forall j, k | 0 <= j < k < |siblings|
      ensures !siblings[j].cidr.Overlaps(siblings[k].cidr) && NoSharedAddress(siblings[j].cidr, siblings[k].cidr)
    {
      if siblings[j].cidr.Overlaps(siblings[k].cidr) {
        OverlapIsReported(infra.subnets, n.id, j, k);
      }
      OverlapsIffNested(siblings[j].cidr, siblings[k].cidr);
    }
    SiblingsFit(siblings, n.cidr);
  }

  lemma OverlapIsReported(subnets: seq<Subnet>, n: string, j: nat, k: nat)
    requires j < k < |SubnetsOf(subnets, n)|
    requires SubnetsOf(subnets, n)[j].cidr.Overlaps(SubnetsOf(subnets, n)[k].cidr)
    ensures OverlapReported(OverlappingSubnets(SubnetsOf(subnets, n)[j].id, SubnetsOf(subnets, n)[k].id), subnets)
  {
    var siblings := SubnetsOf(subnets, n);
    var i := OverlappingSubnets(siblings[j].id, siblings[k].id);
    assert OverlapWith(i, siblings, j, |siblings|);
    assert OverlapIssue(i, SubnetsOf(subnets, n));
  }

  ghost predicate NoSharedAddress(a: SubnetSpec, b: SubnetSpec) {
    !exists x: Address :: a.Contains(x) && b.Contains(x)
  }

  function Intervals(subnets: seq<Subnet>): (r: seq<Interval>)
    ensures |r| == |subnets|
    ensures forall k :: 0 <= k < |r| ==> r[k] == Interval(subnets[k].cidr.base, subnets[k].cidr.Last() + 1)
  {
    seq(|subnets|, k requires 0 <= k < |subnets| => Interval(subnets[k].cidr.base, subnets[k].cidr.Last() + 1))
  }

  lemma {:induction false} CountIsTotal(subnets: seq<Subnet>)
    ensures AddressCount(subnets) == Total(Intervals(subnets))
  {
    if subnets != [] {
      CountIsTotal(subnets[1..]);
      assert Intervals(subnets)[1..] == Intervals(subnets[1..]);
    }
  }

  lemma ApartUnlessOverlapping(a: SubnetSpec, b: SubnetSpec)
    requires a.version == b.version && !a.Overlaps(b)
    ensures Apart(Interval(a.base, a.Last() + 1), Interval(b.base, b.Last() + 1))
  {
    assert !a.Contains(Address(a.version, b.base)) && !b.Contains(Address(a.version, a.base));
  }

  lemma SiblingsPacked(siblings: seq<Subnet>, network: SubnetSpec)
    requires forall s <- siblings :: s.cidr.IsSubnetOf(network)
    requires forall j, k :: 0 <= j < k < |siblings| ==> !siblings[j].cidr.Overlaps(siblings[k].cidr)
    ensures PairwiseApart(Intervals(siblings))
    ensures forall x <- Intervals(siblings) :: network.base <= x.lo <= x.hi <= network.Last() + 1
  {
    var xs := Intervals(siblings);
    forall j, k | 0 <= j < k < |xs| ensures Apart(xs[j], xs[k]) {
      ApartUnlessOverlapping(siblings[j].cidr, siblings[k].cidr);
    }
    forall x | x in xs ensures network.base <= x.lo <= x.hi <= network.Last() + 1 {
      var k :| 0 <= k < |xs| && x == xs[k];
      assert siblings[k] in siblings;
    }
  }

  lemma SiblingsFit(siblings: seq<Subnet>, network: SubnetSpec)
    requires forall s <- siblings :: s.cidr.IsSubnetOf(network)
    requires forall j, k :: 0 <= j < k < |siblings| ==> !siblings[j].cidr.Overlaps(siblings[k].cidr)
    ensures AddressCount(siblings) <= network.Size()
  {
    SiblingsPacked(siblings, network);
    PackedCount(Intervals(siblings), network.base, network.Last() + 1);
    CountIsTotal(siblings);
  }

  // ---------- Compute placement ----------

  predicate Holds(cidr: SubnetSpec, ip: Ip) {
    ip.Parsed? && cidr.Contains(ip.address)
  }

  /** AWS reserves the first four addresses and the last in every IPv4 subnet. */
  predicate IsAwsReserved(ip: Ip, cidr: SubnetSpec) {
    Holds(cidr, ip) && cidr.version.V4?
    && (ip.address.value - cidr.base <= 3 || ip.address.value == cidr.Last())
  }

  predicate IsPlaced(instance: ComputeInstance) {
    instance.subnetId.Some? || instance.interfaces != []
  }

  /** The interface's address, when it lies in the interface's known subnet. */
  predicate Addressed(nic: NetworkInterface, subnets: seq<Subnet>) {
    var s := SubnetById(subnets, nic.subnetId);
    s.Some? && nic.privateIp.Some? && Holds(s.value.cidr, nic.privateIp.value)
  }

  predicate NicIssue(i: Issue, id: string, nic: NetworkInterface, subnets: seq<Subnet>) {
    var s := SubnetById(subnets, nic.subnetId);
    && s.Some? && nic.privateIp.Some?
    && if !Holds(s.value.cidr, nic.privateIp.value) then i == AddressOutsideSubnet(id, s.value.id)
       else IsAwsReserved(nic.privateIp.value, s.value.cidr) && i == AwsReservedAddress(id)
  }

  ghost predicate SomeNicIssue(i: Issue, id: string, interfaces: seq<NetworkInterface>, subnets: seq<Subnet>) {
    interfaces != []
    && (|| SomeNicIssue(i, id, interfaces[..|interfaces| - 1], subnets)
        || NicIssue(i, id, interfaces[|interfaces| - 1], subnets))
  }

  lemma {:induction false} SomeNicIssueMeans(i: Issue, id: string, interfaces: seq<NetworkInterface>, subnets: seq<Subnet>)
    ensures SomeNicIssue(i, id, interfaces, subnets) <==> exists nic <- interfaces :: NicIssue(i, id, nic, subnets)
  {
    if interfaces != [] {
      var front, last := interfaces[..|interfaces| - 1], interfaces[|interfaces| - 1];
      SomeNicIssueMeans(i, id, front, subnets);
      assert forall nic :: nic in interfaces <==> nic in front || nic == last;
    }
  }

  /** What one instance contributes on its own. */
  ghost predicate InstanceIssue(i: Issue, instance: ComputeInstance, subnets: seq<Subnet>) {
    if !IsPlaced(instance) then i == ComputeNotPlaced(instance.id)
    else
      || SomeNicIssue(i, instance.id, instance.interfaces, subnets)
      || (&& i == ForwarderWithSourceDestCheck(instance.id) && instance.isForwarder
          && exists nic <- instance.interfaces :: nic.sourceDestCheck)
  }

  function Held(nic: NetworkInterface, subnets: seq<Subnet>): set<Ip> {
    if Addressed(nic, subnets) then {nic.privateIp.value} else {}
  }

  /** The in-subnet addresses of some interfaces. */
  function HeldBy(interfaces: seq<NetworkInterface>, subnets: seq<Subnet>): set<Ip> {
    if interfaces == [] then {}
    else
      var last := interfaces[|interfaces| - 1];
      HeldBy(interfaces[..|interfaces| - 1], subnets) + Held(last, subnets)
  }

  lemma {:induction false} HeldByMeans(ip: Ip, interfaces: seq<NetworkInterface>, subnets: seq<Subnet>)
    ensures ip in HeldBy(interfaces, subnets)
            <==> exists nic <- interfaces :: Addressed(nic, subnets) && nic.privateIp.value == ip
  {
    if interfaces != [] {
      var front, last := interfaces[..|interfaces| - 1], interfaces[|interfaces| - 1];
      HeldByMeans(ip, front, subnets);
      assert forall nic :: nic in interfaces <==> nic in front || nic == last;
    }
  }

  /** The dictionary after an instance recorded itself as the holder of some addresses. */
  function Record(seen: map<Ip, string>, held: set<Ip>, id: string): map<Ip, string> {
    seen + map ip <- held :: id
  }

  lemma RecordTwice(seen: map<Ip, string>, a: set<Ip>, b: set<Ip>, id: string)
    ensures Record(Record(seen, a, id), b, id) == Record(seen, a + b, id)
    ensures Record(seen, {}, id) == seen
  {
  }

  /** The instance that last held each address. */
  function Holders(compute: seq<ComputeInstance>, subnets: seq<Subnet>): map<Ip, string> {
    if compute == [] then map[]
    else
      var last := compute[|compute| - 1];
      Record(Holders(compute[..|compute| - 1], subnets), HeldBy(last.interfaces, subnets), last.id)
  }

  ghost predicate DuplicateIssue(i: Issue, id: string, held: set<Ip>, seen: map<Ip, string>) {
    exists ip <- held :: ip in seen && seen[ip] != id && i == DuplicateAddress(seen[ip], id)
  }

  ghost predicate PlacementIssueAt(i: Issue, compute: seq<ComputeInstance>, subnets: seq<Subnet>, k: nat)
    requires k < |compute|
  {
    || InstanceIssue(i, compute[k], subnets)
    || DuplicateIssue(i, compute[k].id, HeldBy(compute[k].interfaces, subnets), Holders(compute[..k], subnets))
  }

  ghost predicate PlacementIssueBefore(i: Issue, compute: seq<ComputeInstance>, subnets: seq<Subnet>, k: nat)
    requires k <= |compute|
  {
    exists j :: 0 <= j < k && PlacementIssueAt(i, compute, subnets, j)
  }

  /** The report lists, instance by instance, what that instance and its clash with an earlier
      holder of one of its addresses give rise to, and nothing else. */
  ghost predicate PlacementReport(issues: seq<Issue>, infra: Infrastructure) {
    forall i :: i in issues <==> PlacementIssueBefore(i, infra.compute, infra.subnets, |infra.compute|)
  }

  method ValidateComputePlacement(infra: Infrastructure) returns (issues: seq<Issue>)
    ensures PlacementReport(issues, infra)
  {
    issues := [];
    var seen: map<Ip, string> := map[];
    for k := 0 to |infra.compute|
      invariant seen == Holders(infra.compute[..k], infra.subnets)
      invariant forall i :: i in issues <==> PlacementIssueBefore(i, infra.compute, infra.subnets, k)
    {
      assert infra.compute[..k + 1][..k] == infra.compute[..k];
      var found;
      found, seen := CheckInstance(infra.compute[k], infra.subnets, seen);
      assert forall i :: i in found <==> PlacementIssueAt(i, infra.compute, infra.subnets, k);
      issues := issues + found;
    }
  }

  method CheckInstance(instance: ComputeInstance, subnets: seq<Subnet>, seen: map<Ip, string>)
    returns (issues: seq<Issue>, seen': map<Ip, string>)
    ensures seen' == Record(seen, HeldBy(instance.interfaces, subnets), instance.id)
    ensures forall i :: i in issues <==>
              || InstanceIssue(i, instance, subnets)
              || DuplicateIssue(i, instance.id, HeldBy(instance.interfaces, subnets), seen)
  {
    if instance.subnetId.None? && instance.interfaces == [] {
      return [ComputeNotPlaced(instance.id)], seen;
    }
    issues, seen' := CheckInterfaces(instance.id, instance.interfaces, subnets, seen);
    if instance.isForwarder && exists nic <- instance.interfaces :: nic.sourceDestCheck {
      issues := issues + [ForwarderWithSourceDestCheck(instance.id)];
    }
  }

  method CheckInterfaces(id: string, interfaces: seq<NetworkInterface>, subnets: seq<Subnet>, seen: map<Ip, string>)
    returns (issues: seq<Issue>, seen': map<Ip, string>)
    ensures seen' == Record(seen, HeldBy(interfaces, subnets), id)
    ensures forall i :: i in issues <==> InterfaceIssue(i, id, interfaces, subnets, seen)
  {
    issues, seen' := [], seen;
    RecordTwice(seen, {}, {}, id);
    for m := 0 to |interfaces|
      invariant seen' == Record(seen, HeldBy(interfaces[..m], subnets), id)
      invariant forall i :: i in issues <==> InterfaceIssue(i, id, interfaces[..m], subnets, seen)
    {
      var found;
      ghost var before := seen';
      found, seen' := CheckInterface(id, interfaces[m], subnets, seen');
      RecordTwice(seen, HeldBy(interfaces[..m], subnets), Held(interfaces[m], subnets), id);
      InterfaceStep(issues, found, id, interfaces, m, subnets, seen, before);
      issues := issues + found;
      assert interfaces[..m + 1][..m] == interfaces[..m];
    }
    assert interfaces[..|interfaces|] == interfaces;
  }

  ghost predicate InterfaceIssue(i: Issue, id: string, interfaces: seq<NetworkInterface>, subnets: seq<Subnet>,
                                 seen: map<Ip, string>) {
    SomeNicIssue(i, id, interfaces, subnets) || DuplicateIssue(i, id, HeldBy(interfaces, subnets), seen)
  }

  lemma InterfaceStep(issues: seq<Issue>, found: seq<Issue>, id: string, interfaces: seq<NetworkInterface>, m: nat,
                      subnets: seq<Subnet>, seen: map<Ip, string>, before: map<Ip, string>)
    requires m < |interfaces|
    requires before == Record(seen, HeldBy(interfaces[..m], subnets), id)
    requires forall i :: i in issues <==> InterfaceIssue(i, id, interfaces[..m], subnets, seen)
    requires forall i :: i in found <==>
               NicIssue(i, id, interfaces[m], subnets) || DuplicateIssue(i, id, Held(interfaces[m], subnets), before)
    ensures forall i :: i in issues + found <==> InterfaceIssue(i, id, interfaces[..m + 1], subnets, seen)
  {
    assert interfaces[..m + 1][..m] == interfaces[..m];
    forall i ensures i in issues + found <==> InterfaceIssue(i, id, interfaces[..m + 1], subnets, seen) {
      SameHolder(i, id, HeldBy(interfaces[..m], subnets), Held(interfaces[m], subnets), seen);
    }
  }

  /** Once an instance holds an address, meeting it again on the same instance is no clash. */
  lemma SameHolder(i: Issue, id: string, held: set<Ip>, more: set<Ip>, seen: map<Ip, string>)
    ensures DuplicateIssue(i, id, held + more, seen)
            <==> DuplicateIssue(i, id, held, seen) || DuplicateIssue(i, id, more, Record(seen, held, id))
  {
  }

  method CheckInterface(id: string, nic: NetworkInterface, subnets: seq<Subnet>, seen: map<Ip, string>)
    returns (issues: seq<Issue>, seen': map<Ip, string>)
    ensures seen' == Record(seen, Held(nic, subnets), id)
    ensures forall i :: i in issues <==>
              NicIssue(i, id, nic, subnets) || DuplicateIssue(i, id, Held(nic, subnets), seen)
  {
    issues, seen' := [], seen;
    var s := SubnetById(subnets, nic.subnetId);
    if s.None? || nic.privateIp.None? {
      return;
    }
    var ip := nic.privateIp.value;
    if !Holds(s.value.cidr, ip) {
      return [AddressOutsideSubnet(id, s.value.id)], seen;
    }
    assert Held(nic, subnets) == {ip};
    if ip in seen && seen[ip] != id {
      issues := [DuplicateAddress(seen[ip], id)];
    }
    seen' := seen[ip := id];
    if IsAwsReserved(ip, s.value.cidr) {
      issues := issues + [AwsReservedAddress(id)];
    }
  }

  /** Every reported kind of placement error is absent. */
  lemma NoPlacementErrors(issues: seq<Issue>, infra: Infrastructure, i: Issue, k: nat)
    requires PlacementReport(issues, infra) && NoErrors(issues) && i.IsError() && k < |infra.compute|
    ensures !PlacementIssueAt(i, infra.compute, infra.subnets, k)
  {
    if PlacementIssueAt(i, infra.compute, infra.subnets, k) {
      PlacementIssueListed(issues, infra, i, k);
    }
  }

  lemma PlacementIssueListed(issues: seq<Issue>, infra: Infrastructure, i: Issue, k: nat)
    requires PlacementReport(issues, infra) && k < |infra.compute|
    requires PlacementIssueAt(i, infra.compute, infra.subnets, k)
    ensures i in issues
  {
    assert PlacementIssueBefore(i, infra.compute, infra.subnets, |infra.compute|);
  }

  /** Without a reported clash, the last holder of an address is its only holder. */
  lemma {:induction false} LastHolderIsOnly(issues: seq<Issue>, infra: Infrastructure, k: nat, j: nat, ip: Ip)
    requires PlacementReport(issues, infra) && NoErrors(issues)
    requires j < k <= |infra.compute| && ip in HeldBy(infra.compute[j].interfaces, infra.subnets)
    ensures ip in Holders(infra.compute[..k], infra.subnets)
    ensures Holders(infra.compute[..k], infra.subnets)[ip] == infra.compute[j].id
  {
    assert infra.compute[..k][..k - 1] == infra.compute[..k - 1];
    if j < k - 1 {
      LastHolderIsOnly(issues, infra, k - 1, j, ip);
      var last := infra.compute[k - 1];
      if ip in HeldBy(last.interfaces, infra.subnets) && infra.compute[j].id != last.id {
        NoPlacementErrors(issues, infra, DuplicateAddress(infra.compute[j].id, last.id), k - 1);
      }
    }
  }

  /** An instance has an interface with this address in the named subnet. */
  ghost predicate ResidentAt(compute: seq<ComputeInstance>, subnetId: string, id: string, ip: Ip) {
    exists k, m :: 0 <= k < |compute| && 0 <= m < |compute[k].interfaces| && compute[k].id == id
                   && compute[k].interfaces[m].subnetId == subnetId
                   && compute[k].interfaces[m].privateIp == Some(ip)
  }

  ghost function Residents(compute: seq<ComputeInstance>, subnetId: string): set<string> {
    set instance <- compute, nic <- instance.interfaces
      | nic.subnetId == subnetId && nic.privateIp.Some? :: instance.id
  }

  function Free(cidr: SubnetSpec): (r: set<nat>) {
    Range(cidr.base + 4, cidr.Last())
  }

  function UsableAddresses(cidr: SubnetSpec): nat {
    if cidr.Size() >= 5 then cidr.Size() - 5 else 0
  }

  lemma ResidentIsFree(issues: seq<Issue>, infra: Infrastructure, s: Subnet, id: string, ip: Ip)
    requires PlacementReport(issues, infra) && NoErrors(issues)
    requires SubnetById(infra.subnets, s.id) == Some(s) && s.cidr.version.V4?
    requires ResidentAt(infra.compute, s.id, id, ip)
    ensures Holds(s.cidr, ip) && ip.address.value in Free(s.cidr)
    ensures exists k :: 0 <= k < |infra.compute| && infra.compute[k].id == id
                        && ip in HeldBy(infra.compute[k].interfaces, infra.subnets)
  {
    var k, m :| 0 <= k < |infra.compute| && 0 <= m < |infra.compute[k].interfaces| && infra.compute[k].id == id
                && infra.compute[k].interfaces[m].subnetId == s.id
                && infra.compute[k].interfaces[m].privateIp == Some(ip);
    var instance, nic := infra.compute[k], infra.compute[k].interfaces[m];
    assert nic in instance.interfaces;
    SomeNicIssueMeans(AddressOutsideSubnet(id, s.id), id, instance.interfaces, infra.subnets);
    NoPlacementErrors(issues, infra, AddressOutsideSubnet(id, s.id), k);
    SomeNicIssueMeans(AwsReservedAddress(id), id, instance.interfaces, infra.subnets);
    NoPlacementErrors(issues, infra, AwsReservedAddress(id), k);
    HeldByMeans(ip, instance.interfaces, infra.subnets);
  }

  /** Two instances never share an address of the subnet. */
  lemma ResidentsApart(issues: seq<Issue>, infra: Infrastructure, s: Subnet, a: string, b: string, ip: Ip)
    requires PlacementReport(issues, infra) && NoErrors(issues)
    requires SubnetById(infra.subnets, s.id) == Some(s) && s.cidr.version.V4?
    requires ResidentAt(infra.compute, s.id, a, ip) && ResidentAt(infra.compute, s.id, b, ip)
    ensures a == b
  {
    ResidentIsFree(issues, infra, s, a, ip);
    ResidentIsFree(issues, infra, s, b, ip);
    var j :| 0 <= j < |infra.compute| && infra.compute[j].id == a && ip in HeldBy(infra.compute[j].interfaces, infra.subnets);
    var k :| 0 <= k < |infra.compute| && infra.compute[k].id == b && ip in HeldBy(infra.compute[k].interfaces, infra.subnets);
    LastHolderIsOnly(issues, infra, |infra.compute|, j, ip);
    LastHolderIsOnly(issues, infra, |infra.compute|, k, ip);
  }

  /** Capacity: in an error-free architecture an IPv4 subnet of `n` addresses houses at most
      `n - 5` distinct instances with an address in it, and none when `n < 5`. */
  lemma SubnetCapacity(issues: seq<Issue>, infra: Infrastructure, s: Subnet)
    requires PlacementReport(issues, infra) && NoErrors(issues)
    requires SubnetById(infra.subnets, s.id) == Some(s) && s.cidr.version.V4?
    ensures |Residents(infra.compute, s.id)| <= UsableAddresses(s.cidr)
  {
    var ids := Residents(infra.compute, s.id);
    forall id | id in ids ensures exists ip :: ResidentAt(infra.compute, s.id, id, ip) {
      ResidentHasAddress(infra.compute, s.id, id);
    }
    var chosen := map id | id in ids :: (var ip :| ResidentAt(infra.compute, s.id, id, ip); ip);
    assert chosen.Keys == ids;
    ChosenApart(issues, infra, s, chosen);
    FreeCount(s.cidr);
  }

  lemma ResidentHasAddress(compute: seq<ComputeInstance>, subnetId: string, id: string)
    requires id in Residents(compute, subnetId)
    ensures exists ip :: ResidentAt(compute, subnetId, id, ip)
  {
    var instance, nic :| instance in compute && nic in instance.interfaces
                         && nic.subnetId == subnetId && nic.privateIp.Some? && instance.id == id;
    var k :| 0 <= k < |compute| && compute[k] == instance;
    var m :| 0 <= m < |instance.interfaces| && instance.interfaces[m] == nic;
    assert ResidentAt(compute, subnetId, id, nic.privateIp.value);
  }

  lemma ChosenApart(issues: seq<Issue>, infra: Infrastructure, s: Subnet, chosen: map<string, Ip>)
    requires PlacementReport(issues, infra) && NoErrors(issues)
    requires SubnetById(infra.subnets, s.id) == Some(s) && s.cidr.version.V4?
    requires forall id <- chosen :: ResidentAt(infra.compute, s.id, id, chosen[id])
    ensures |chosen.Keys| <= |Free(s.cidr)|
  {
    forall id | id in chosen ensures Holds(s.cidr, chosen[id]) && chosen[id].address.value in Free(s.cidr) {
      ResidentIsFree(issues, infra, s, id, chosen[id]);
    }
    var f := map id | id in chosen :: chosen[id].address.value;
    forall a, b | a in f && b in f && f[a] == f[b] ensures a == b {
      ResidentsApart(issues, infra, s, a, b, chosen[a]);
    }
    assert f.Keys == chosen.Keys;
    InjectionCount(f, Free(s.cidr));
  }

  lemma FreeCount(cidr: SubnetSpec)
    ensures |Free(cidr)| == UsableAddresses(cidr)
  {
    if cidr.Size() >= 5 {
      RangeCount(cidr.base + 4, cidr.Last());
    } else {
      assert Free(cidr) == {};
    }
  }

  // ---------- Route tables ----------

  predicate HasRepeatedDestination(routes: seq<Route>) {
    exists j, k :: 0 <= j < k < |routes| && routes[j].destination == routes[k].destination
  }

  ghost predicate TableIssue(i: Issue, table: RouteTable, ids: set<string>) {
    || (i == RouteTargetMissing(table.id) && exists r <- table.routes :: r.targetRef !in ids)
    || (i == DuplicateRouteDestination(table.id) && HasRepeatedDestination(table.routes))
  }

  predicate GatewayIssue(i: Issue, g: Gateway) {
    || (i == NatGatewayWithoutSubnet(g.id) && g.kind.Nat? && g.subnetId.None?)
    || (i == PeeringArity(g.id) && g.kind.Peering? && |g.peerNetworkIds| != 2)
  }

  ghost predicate RouteReport(issues: seq<Issue>, infra: Infrastructure) {
    forall i :: i in issues <==>
                || (exists t <- infra.routeTables :: TableIssue(i, t, set id <- infra.ResourceIds()))
                || (exists s <- infra.subnets :: i == SubnetWithoutRouteTable(s.id)
                                                 && !exists t <- infra.routeTables :: s.id in t.associatedSubnetIds)
                || (exists g <- infra.gateways :: GatewayIssue(i, g))
  }

  method ValidateRouteTables(infra: Infrastructure) returns (issues: seq<Issue>)
    ensures RouteReport(issues, infra)
  {
    var resourceIds := set id <- infra.ResourceIds();
    var associated: set<string> := {};
    var fromTables: seq<Issue> := [];
    for k := 0 to |infra.routeTables|
      invariant forall id :: id in associated <==> exists t <- infra.routeTables[..k] :: id in t.associatedSubnetIds
      invariant forall i :: i in fromTables <==> exists t <- infra.routeTables[..k] :: TableIssue(i, t, resourceIds)
    {
      var table := infra.routeTables[k];
      assert infra.routeTables[..k + 1] == infra.routeTables[..k] + [table];
      associated := associated + set id <- table.associatedSubnetIds;
      var found := CheckRoutes(table, resourceIds);
      fromTables := fromTables + found;
    }
    assert infra.routeTables[..|infra.routeTables|] == infra.routeTables;
    var fromSubnets := UnassociatedSubnets(infra.subnets, associated);
    var fromGateways := CheckGateways(infra.gateways);
    issues := fromTables + fromSubnets + fromGateways;
  }

  method CheckRoutes(table: RouteTable, resourceIds: set<string>) returns (issues: seq<Issue>)
    ensures forall i :: i in issues <==> TableIssue(i, table, resourceIds)
  {
    issues := [];
    var destinations: set<SubnetSpec> := {};
    for k := 0 to |table.routes|
      invariant destinations == set r <- table.routes[..k] :: r.destination
      invariant forall i :: i in issues <==> TableIssue(i, table.(routes := table.routes[..k]), resourceIds)
    {
      var route := table.routes[k];
      assert table.routes[..k + 1] == table.routes[..k] + [route];
      ghost var repeated := HasRepeatedDestination(table.routes[..k]);
      assert HasRepeatedDestination(table.routes[..k + 1]) <==> repeated || route.destination in destinations by {
        RepeatedStep(table.routes[..k], route);
      }
      if route.targetRef !in resourceIds {
        issues := issues + [RouteTargetMissing(table.id)];
      }
      if route.destination in destinations {
        issues := issues + [DuplicateRouteDestination(table.id)];
      }
      destinations := destinations + {route.destination};
    }
    assert table.routes[..|table.routes|] == table.routes;
  }

  lemma RepeatedStep(front: seq<Route>, route: Route)
    ensures HasRepeatedDestination(front + [route]) <==>
            HasRepeatedDestination(front) || exists r <- front :: r.destination == route.destination
  {
    var routes := front + [route];
    if r :| r in front && r.destination == route.destination {
      var j :| 0 <= j < |front| && front[j] == r;
      assert routes[j].destination == routes[|front|].destination;
    }
    if j, k :| 0 <= j < k < |front| && front[j].destination == front[k].destination {
      assert routes[j].destination == routes[k].destination;
    }
  }

  method UnassociatedSubnets(subnets: seq<Subnet>, associated: set<string>) returns (issues: seq<Issue>)
    ensures forall i :: i in issues <==> exists s <- subnets :: i == SubnetWithoutRouteTable(s.id) && s.id !in associated
  {
    issues := [];
    for k := 0 to |subnets|
      invariant forall i :: i in issues <==>
                            exists s <- subnets[..k] :: i == SubnetWithoutRouteTable(s.id) && s.id !in associated
    {
      assert subnets[..k + 1] == subnets[..k] + [subnets[k]];
      if subnets[k].id !in associated {
        issues := issues + [SubnetWithoutRouteTable(subnets[k].id)];
      }
    }
    assert subnets[..|subnets|] == subnets;
  }

  method CheckGateways(gateways: seq<Gateway>) returns (issues: seq<Issue>)
    ensures forall i :: i in issues <==> exists g <- gateways :: GatewayIssue(i, g)
  {
    issues := [];
    for k := 0 to |gateways|
      invariant forall i :: i in issues <==> exists g <- gateways[..k] :: GatewayIssue(i, g)
    {
      var g := gateways[k];
      assert gateways[..k + 1] == gateways[..k] + [g];
      assert forall i :: (exists h <- gateways[..k + 1] :: GatewayIssue(i, h)) <==>
                         (exists h <- gateways[..k] :: GatewayIssue(i, h)) || GatewayIssue(i, g);
      if g.kind.Nat? && g.subnetId.None? {
        issues := issues + [NatGatewayWithoutSubnet(g.id)];
      }
      if g.kind.Peering? && |g.peerNetworkIds| != 2 {
        issues := issues + [PeeringArity(g.id)];
      }
    }
    assert gateways[..|gateways|] == gateways;
  }
}
