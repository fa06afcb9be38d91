/**
 What each reported issue means, in addresses: for every code, exactly when it is in the report.
 Dictionaries keep the last entry of an id, so an id stands for the last network or subnet that has it.
 */
module ValidatorMeaning {
  import opened Wrappers
  import opened Addressing
  import opened CloudModel
  import opened CloudValidators

  // ---------- Subnets ----------

  /** Every address of one block is in the other. */
  ghost predicate Within(a: SubnetSpec, b: SubnetSpec) {
    forall x: Address :: IsIn(a, x) ==> IsIn(b, x)
  }

  predicate IsIn(b: SubnetSpec, x: Address) {
    x.version == b.version && b.base <= x.value < b.base + b.Size()
  }

  ghost predicate Meet(a: SubnetSpec, b: SubnetSpec) {
    exists x: Address :: IsIn(a, x) && IsIn(b, x)
  }

  ghost predicate LiesOutside(s: Subnet, n: VirtualNetwork) {
    !Within(s.cidr, n.cidr) && forall c <- n.secondaryCidrs :: !Within(s.cidr, c)
  }

  lemma WithinIff(a: SubnetSpec, b: SubnetSpec)
    ensures a.IsSubnetOf(b) <==> Within(a, b)
  {
    if Within(a, b) {
      assert IsIn(a, Address(a.version, a.base)) && IsIn(a, Address(a.version, a.Last()));
    }
  }

  lemma OutsideMeans(s: Subnet, n: VirtualNetwork)
    ensures InsideNetwork(s, n) <==> !LiesOutside(s, n)
  {
    WithinIff(s.cidr, n.cidr);
    forall c | c in n.secondaryCidrs ensures s.cidr.IsSubnetOf(c) <==> Within(s.cidr, c) {
      WithinIff(s.cidr, c);
    }
  }

  ghost predicate OutsideAt(infra: Infrastructure, s: Subnet, n: VirtualNetwork) {
    IsLastNetwork(infra.networks, s.networkId, n) && LiesOutside(s, n)
  }

  /** A subnet outside its network: some address of it is in no block of the network, main or secondary,
      for each of them. */
  lemma OutsideExactly(infra: Infrastructure, issues: seq<Issue>, subnetId: string, networkId: string)
    requires SubnetReport(issues, infra)
    ensures SubnetOutsideNetwork(subnetId, networkId) in issues <==>
            exists s <- infra.subnets, n <- infra.networks ::
              s.id == subnetId && s.networkId == networkId && OutsideAt(infra, s, n)
  {
    var i := SubnetOutsideNetwork(subnetId, networkId);
    if i in issues {
      var s :| s in infra.subnets && s.id == subnetId && s.networkId == networkId && OutsideItsNetwork(s, infra.networks);
      var n := NetworkById(infra.networks, networkId).value;
      NetworkByIdExactly(infra.networks, networkId, n);
      OutsideMeans(s, n);
      assert OutsideAt(infra, s, n);
    }
    if s, n :| s in infra.subnets && n in infra.networks && s.id == subnetId && s.networkId == networkId
               && OutsideAt(infra, s, n) {
      NetworkByIdExactly(infra.networks, networkId, n);
      OutsideMeans(s, n);
      assert SubnetIssue(i, infra.subnets, infra.networks);
    }
  }

  /** A subnet is too small when it is a single address. */
  lemma SmallIff(b: SubnetSpec)
    ensures b.UsableHostCount() < 2 <==> b.length == b.version.Width()
  {
    var bits := b.version.Width() - b.length;
    assert Pow2(0) == 1 && Pow2(1) == 2 && Pow2(2) == 4;
    if bits > 2 {
      Pow2Grows(2, bits);
    }
  }

  lemma TooSmallExactly(infra: Infrastructure, issues: seq<Issue>, subnetId: string)
    requires SubnetReport(issues, infra)
    ensures SubnetTooSmall(subnetId) in issues <==>
            exists s <- infra.subnets ::
              s.id == subnetId && s.cidr.length == s.cidr.version.Width() && exists n <- infra.networks :: n.id == s.networkId
  {
    var i := SubnetTooSmall(subnetId);
    if i in issues {
      var s :| s in infra.subnets && s.id == subnetId && s.cidr.UsableHostCount() < 2
               && NetworkById(infra.networks, s.networkId).Some?;
      SmallIff(s.cidr);
      assert NetworkById(infra.networks, s.networkId).value in infra.networks;
    }
    if s :| s in infra.subnets && s.id == subnetId && s.cidr.length == s.cidr.version.Width()
            && exists n <- infra.networks :: n.id == s.networkId {
      SmallIff(s.cidr);
      assert SubnetIssue(i, infra.subnets, infra.networks);
    }
  }

  ghost predicate Collide(subnets: seq<Subnet>, j: nat, k: nat)
    requires j < k < |subnets|
  {
    subnets[j].networkId == subnets[k].networkId && Meet(subnets[j].cidr, subnets[k].cidr)
  }

  lemma MeetIff(a: SubnetSpec, b: SubnetSpec)
    ensures a.Overlaps(b) <==> Meet(a, b)
  {
    OverlapsIffNested(a, b);
    if x: Address :| a.Contains(x) && b.Contains(x) {
      assert IsIn(a, x) && IsIn(b, x);
    }
    if x: Address :| IsIn(a, x) && IsIn(b, x) {
      assert a.Contains(x) && b.Contains(x);
    }
  }

  lemma CollisionReported(subnets: seq<Subnet>, j: nat, k: nat)
    requires j < k < |subnets| && Collide(subnets, j, k)
    ensures OverlapReported(OverlappingSubnets(subnets[j].id, subnets[k].id), subnets)
  {
    var n := subnets[j].networkId;
    SiblingAt(subnets, j, n);
    SiblingAt(subnets, k, n);
    BeforeGrows(subnets, j, k, n);
    MeetIff(subnets[j].cidr, subnets[k].cidr);
    OverlapIsReported(subnets, n, |Before(subnets, j, n)|, |Before(subnets, k, n)|);
  }

  lemma ReportedCollision(subnets: seq<Subnet>, first: string, second: string) returns (j: nat, k: nat)
    requires OverlapReported(OverlappingSubnets(first, second), subnets)
    ensures j < k < |subnets| && Collide(subnets, j, k) && subnets[j].id == first && subnets[k].id == second
  {
    var n :| OverlapIssue(OverlappingSubnets(first, second), SubnetsOf(subnets, n));
    var siblings := SubnetsOf(subnets, n);
    var a :| 0 <= a < |siblings| && OverlapWith(OverlappingSubnets(first, second), siblings, a, |siblings|);
    var b :| a < b < |siblings| && siblings[a].cidr.Overlaps(siblings[b].cidr)
             && OverlappingSubnets(first, second) == OverlappingSubnets(siblings[a].id, siblings[b].id);
    MeetIff(siblings[a].cidr, siblings[b].cidr);
    j, k := TwoPlaces(subnets, n, a, b);
  }

  lemma TwoPlaces(subnets: seq<Subnet>, networkId: string, a: nat, b: nat) returns (j: nat, k: nat)
    requires a < b < |SubnetsOf(subnets, networkId)|
    ensures j < k < |subnets| && subnets[j].networkId == networkId == subnets[k].networkId
    ensures subnets[j] == SubnetsOf(subnets, networkId)[a] && subnets[k] == SubnetsOf(subnets, networkId)[b]
  {
    j := SiblingPlace(subnets, networkId, a);
    k := SiblingPlace(subnets, networkId, b);
    if k < j {
      BeforeGrows(subnets, k, j, networkId);
    }
  }

  /** Two subnets of one network, the first listed before the second, share an address. */
  lemma OverlapExactly(infra: Infrastructure, issues: seq<Issue>, first: string, second: string)
    requires SubnetReport(issues, infra)
    ensures OverlappingSubnets(first, second) in issues <==>
            exists j, k | 0 <= j < k < |infra.subnets| ::
              infra.subnets[j].id == first && infra.subnets[k].id == second && Collide(infra.subnets, j, k)
  {
    var i := OverlappingSubnets(first, second);
    if i in issues {
      var j, k := ReportedCollision(infra.subnets, first, second);
    }
    if j, k :| 0 <= j < k < |infra.subnets| && infra.subnets[j].id == first && infra.subnets[k].id == second
               && Collide(infra.subnets, j, k) {
      CollisionReported(infra.subnets, j, k);
    }
  }

  // ---------- Compute placement ----------

  /** The address of an interface, and the subnet it is meant for. */
  predicate Assigned(infra: Infrastructure, nic: NetworkInterface, ip: Ip, s: Subnet) {
    nic.privateIp == Some(ip) && IsLastSubnet(infra.subnets, nic.subnetId, s)
  }

  predicate Fits(ip: Ip, b: SubnetSpec) {
    ip.Parsed? && IsIn(b, ip.address)
  }

  lemma AssignedIff(infra: Infrastructure, nic: NetworkInterface, ip: Ip, s: Subnet)
    ensures Assigned(infra, nic, ip, s) <==>
            nic.privateIp == Some(ip) && SubnetById(infra.subnets, nic.subnetId) == Some(s)
    ensures Holds(s.cidr, ip) <==> Fits(ip, s.cidr)
  {
    SubnetByIdExactly(infra.subnets, nic.subnetId, s);
  }

  predicate IsOf(compute: seq<ComputeInstance>, id: string, nic: NetworkInterface) {
    exists c <- compute :: c.id == id && nic in c.interfaces
  }

  lemma NotPlacedExactly(infra: Infrastructure, issues: seq<Issue>, id: string)
    requires PlacementReport(issues, infra)
    ensures ComputeNotPlaced(id) in issues <==>
            exists c <- infra.compute :: c.id == id && c.subnetId == None && c.interfaces == []
  {
    var i := ComputeNotPlaced(id);
    if i in issues {
      var k :| 0 <= k < |infra.compute| && PlacementIssueAt(i, infra.compute, infra.subnets, k);
      SomeNicIssueMeans(i, infra.compute[k].id, infra.compute[k].interfaces, infra.subnets);
      assert infra.compute[k] in infra.compute;
    }
    if c :| c in infra.compute && c.id == id && c.subnetId == None && c.interfaces == [] {
      var k :| 0 <= k < |infra.compute| && infra.compute[k] == c;
      PlacementIssueListed(issues, infra, i, k);
    }
  }

  lemma NicIssueListed(infra: Infrastructure, issues: seq<Issue>, i: Issue, c: ComputeInstance, nic: NetworkInterface)
    requires PlacementReport(issues, infra) && c in infra.compute && nic in c.interfaces
    requires NicIssue(i, c.id, nic, infra.subnets)
    ensures i in issues
  {
    var k :| 0 <= k < |infra.compute| && infra.compute[k] == c;
    SomeNicIssueMeans(i, c.id, c.interfaces, infra.subnets);
    PlacementIssueListed(issues, infra, i, k);
  }

  lemma NicIssueFrom(infra: Infrastructure, issues: seq<Issue>, i: Issue) returns (c: ComputeInstance, nic: NetworkInterface)
    requires PlacementReport(issues, infra) && i in issues && (i.AddressOutsideSubnet? || i.AwsReservedAddress?)
    ensures c in infra.compute && nic in c.interfaces && NicIssue(i, c.id, nic, infra.subnets)
  {
    var k :| 0 <= k < |infra.compute| && PlacementIssueAt(i, infra.compute, infra.subnets, k);
    c := infra.compute[k];
    SomeNicIssueMeans(i, c.id, c.interfaces, infra.subnets);
    nic :| nic in c.interfaces && NicIssue(i, c.id, nic, infra.subnets);
  }

  predicate Strays(infra: Infrastructure, nic: NetworkInterface, ip: Ip, s: Subnet, subnetId: string) {
    Assigned(infra, nic, ip, s) && s.id == subnetId && !Fits(ip, s.cidr)
  }

  predicate StraysFrom(infra: Infrastructure, nic: NetworkInterface, subnetId: string) {
    nic.privateIp.Some? && exists s <- infra.subnets :: Strays(infra, nic, nic.privateIp.value, s, subnetId)
  }

  /** An interface whose address is not one of its subnet's, or is no address at all. */
  lemma OutsideSubnetExactly(infra: Infrastructure, issues: seq<Issue>, id: string, subnetId: string)
    requires PlacementReport(issues, infra)
    ensures AddressOutsideSubnet(id, subnetId) in issues <==>
            exists c <- infra.compute, nic <- c.interfaces :: c.id == id && StraysFrom(infra, nic, subnetId)
  {
    var i := AddressOutsideSubnet(id, subnetId);
    if i in issues {
      var c, nic := NicIssueFrom(infra, issues, i);
      var s := SubnetById(infra.subnets, nic.subnetId).value;
      AssignedIff(infra, nic, nic.privateIp.value, s);
      assert Strays(infra, nic, nic.privateIp.value, s, subnetId);
      assert StraysFrom(infra, nic, subnetId);
    }
    if c, nic :| c in infra.compute && nic in c.interfaces && c.id == id && StraysFrom(infra, nic, subnetId) {
      var s :| s in infra.subnets && Strays(infra, nic, nic.privateIp.value, s, subnetId);
      AssignedIff(infra, nic, nic.privateIp.value, s);
      NicIssueListed(infra, issues, i, c, nic);
    }
  }

  /** The first four addresses of a block, and the last. */
  predicate IsReservedIn(ip: Ip, b: SubnetSpec) {
    && ip.Parsed? && ip.address.version.V4? && b.version.V4?
    && (|| ip.address.value == b.base
        || (ip.address.value == b.base + 1 && b.Size() > 1)
        || (ip.address.value == b.base + 2 && b.Size() > 2)
        || (ip.address.value == b.base + 3 && b.Size() > 3)
        || ip.address.value == b.base + b.Size() - 1)
  }

  /** No other address of a subnet is reserved. */
  lemma ReservedIff(ip: Ip, b: SubnetSpec)
    ensures IsAwsReserved(ip, b) <==> IsReservedIn(ip, b)
  {
  }

  predicate IsReservedFor(infra: Infrastructure, nic: NetworkInterface) {
    nic.privateIp.Some?
    && exists s <- infra.subnets :: Assigned(infra, nic, nic.privateIp.value, s) && IsReservedIn(nic.privateIp.value, s.cidr)
  }

  lemma ReservedExactly(infra: Infrastructure, issues: seq<Issue>, id: string)
    requires PlacementReport(issues, infra)
    ensures AwsReservedAddress(id) in issues <==>
            exists c <- infra.compute, nic <- c.interfaces :: c.id == id && IsReservedFor(infra, nic)
  {
    var i := AwsReservedAddress(id);
    if i in issues {
      var c, nic := NicIssueFrom(infra, issues, i);
      var s := SubnetById(infra.subnets, nic.subnetId).value;
      AssignedIff(infra, nic, nic.privateIp.value, s);
      ReservedIff(nic.privateIp.value, s.cidr);
      assert IsReservedFor(infra, nic);
    }
    if c, nic :| c in infra.compute && nic in c.interfaces && c.id == id && IsReservedFor(infra, nic) {
      var s :| s in infra.subnets && Assigned(infra, nic, nic.privateIp.value, s) && IsReservedIn(nic.privateIp.value, s.cidr);
      AssignedIff(infra, nic, nic.privateIp.value, s);
      ReservedIff(nic.privateIp.value, s.cidr);
      NicIssueListed(infra, issues, i, c, nic);
    }
  }

  lemma CheckedForwarderExactly(infra: Infrastructure, issues: seq<Issue>, id: string)
    requires PlacementReport(issues, infra)
    ensures ForwarderWithSourceDestCheck(id) in issues <==>
            exists c <- infra.compute, nic <- c.interfaces :: c.id == id && c.isForwarder && nic.sourceDestCheck
  {
    var i := ForwarderWithSourceDestCheck(id);
    if i in issues {
      var k :| 0 <= k < |infra.compute| && PlacementIssueAt(i, infra.compute, infra.subnets, k);
      SomeNicIssueMeans(i, infra.compute[k].id, infra.compute[k].interfaces, infra.subnets);
      assert infra.compute[k] in infra.compute;
    }
    if c, nic :| c in infra.compute && nic in c.interfaces && c.id == id && c.isForwarder && nic.sourceDestCheck {
      var k :| 0 <= k < |infra.compute| && infra.compute[k] == c;
      PlacementIssueListed(issues, infra, i, k);
    }
  }

  /** An instance has an interface whose address is this one and lies in its subnet. */
  predicate HasAddress(infra: Infrastructure, c: ComputeInstance, ip: Ip) {
    exists nic <- c.interfaces, s <- infra.subnets :: Assigned(infra, nic, ip, s) && Fits(ip, s.cidr)
  }

  lemma HasAddressIff(infra: Infrastructure, c: ComputeInstance, ip: Ip)
    ensures ip in HeldBy(c.interfaces, infra.subnets) <==> HasAddress(infra, c, ip)
  {
    HeldByMeans(ip, c.interfaces, infra.subnets);
    if nic :| nic in c.interfaces && Addressed(nic, infra.subnets) && nic.privateIp.value == ip {
      AssignedIff(infra, nic, ip, SubnetById(infra.subnets, nic.subnetId).value);
    }
    if nic, s :| nic in c.interfaces && s in infra.subnets && Assigned(infra, nic, ip, s) && Fits(ip, s.cidr) {
      AssignedIff(infra, nic, ip, s);
    }
  }

  /** The last instance before this place that has the address. */
  predicate IsPrevious(infra: Infrastructure, k: nat, ip: Ip, j: nat)
    requires k <= |infra.compute|
  {
    && j < k && HasAddress(infra, infra.compute[j], ip)
    && forall m | j < m < k :: !HasAddress(infra, infra.compute[m], ip)
  }

  lemma {:induction false} HolderExactly(infra: Infrastructure, k: nat, ip: Ip)
    requires k <= |infra.compute|
    ensures var seen := Holders(infra.compute[..k], infra.subnets);
            && (ip in seen ==> exists j | 0 <= j < k :: IsPrevious(infra, k, ip, j) && seen[ip] == infra.compute[j].id)
            && (ip !in seen ==> forall j | 0 <= j < k :: !HasAddress(infra, infra.compute[j], ip))
  {
    if k > 0 {
      HolderExactly(infra, k - 1, ip);
      HoldersStep(infra, k, ip);
      if HasAddress(infra, infra.compute[k - 1], ip) {
        assert IsPrevious(infra, k, ip, k - 1);
      } else if j :| 0 <= j < k - 1 && IsPrevious(infra, k - 1, ip, j)
                     && Holders(infra.compute[..k - 1], infra.subnets)[ip] == infra.compute[j].id {
        assert IsPrevious(infra, k, ip, j);
      }
    }
  }

  lemma HoldersStep(infra: Infrastructure, k: nat, ip: Ip)
    requires 0 < k <= |infra.compute|
    ensures var before, seen := Holders(infra.compute[..k - 1], infra.subnets), Holders(infra.compute[..k], infra.subnets);
            if HasAddress(infra, infra.compute[k - 1], ip) then ip in seen && seen[ip] == infra.compute[k - 1].id
            else (ip in seen <==> ip in before) && (ip in seen ==> seen[ip] == before[ip])
  {
    assert infra.compute[..k][..k - 1] == infra.compute[..k - 1];
    HasAddressIff(infra, infra.compute[k - 1], ip);
  }

  lemma PreviousUnique(infra: Infrastructure, k: nat, ip: Ip, i: nat, j: nat)
    requires k <= |infra.compute| && IsPrevious(infra, k, ip, i) && IsPrevious(infra, k, ip, j)
    ensures i == j
  {
  }

  predicate Clash(infra: Infrastructure, previous: string, id: string, j: nat, k: nat, ip: Ip)
    requires j < k < |infra.compute|
  {
    && infra.compute[j].id == previous && infra.compute[k].id == id && previous != id
    && HasAddress(infra, infra.compute[k], ip) && IsPrevious(infra, k, ip, j)
  }

  lemma ClashFrom(infra: Infrastructure, issues: seq<Issue>, previous: string, id: string) returns (j: nat, k: nat, ip: Ip)
    requires PlacementReport(issues, infra) && DuplicateAddress(previous, id) in issues
    ensures j < k < |infra.compute| && Clash(infra, previous, id, j, k, ip)
  {
    var i := DuplicateAddress(previous, id);
    k :| 0 <= k < |infra.compute| && PlacementIssueAt(i, infra.compute, infra.subnets, k);
    SomeNicIssueMeans(i, infra.compute[k].id, infra.compute[k].interfaces, infra.subnets);
    var seen := Holders(infra.compute[..k], infra.subnets);
    ip :| ip in HeldBy(infra.compute[k].interfaces, infra.subnets) && ip in seen && seen[ip] != id && seen[ip] == previous;
    HasAddressIff(infra, infra.compute[k], ip);
    HolderExactly(infra, k, ip);
    j :| 0 <= j < k && IsPrevious(infra, k, ip, j) && seen[ip] == infra.compute[j].id;
  }

  lemma ClashReported(infra: Infrastructure, issues: seq<Issue>, previous: string, id: string, j: nat, k: nat, ip: Ip)
    requires PlacementReport(issues, infra) && j < k < |infra.compute| && Clash(infra, previous, id, j, k, ip)
    ensures DuplicateAddress(previous, id) in issues
  {
    HolderExactly(infra, k, ip);
    HasAddressIff(infra, infra.compute[k], ip);
    var seen := Holders(infra.compute[..k], infra.subnets);
    var other :| 0 <= other < k && IsPrevious(infra, k, ip, other) && seen[ip] == infra.compute[other].id;
    PreviousUnique(infra, k, ip, j, other);
    assert DuplicateIssue(DuplicateAddress(previous, id), id, HeldBy(infra.compute[k].interfaces, infra.subnets), seen);
    PlacementIssueListed(issues, infra, DuplicateAddress(previous, id), k);
  }

  /** An instance has an address, in its subnet, that the last instance before it with that address,
      under another id, also has. */
  lemma DuplicateExactly(infra: Infrastructure, issues: seq<Issue>, previous: string, id: string)
    requires PlacementReport(issues, infra)
    ensures DuplicateAddress(previous, id) in issues <==>
            exists j, k, ip | 0 <= j < k < |infra.compute| :: Clash(infra, previous, id, j, k, ip)
  {
    if DuplicateAddress(previous, id) in issues {
      var j, k, ip := ClashFrom(infra, issues, previous, id);
    }
    if j, k, ip :| 0 <= j < k < |infra.compute| && Clash(infra, previous, id, j, k, ip) {
      ClashReported(infra, issues, previous, id, j, k, ip);
    }
  }

  // ---------- Route tables and gateways ----------

  lemma TargetMissingExactly(infra: Infrastructure, issues: seq<Issue>, id: string)
    requires RouteReport(issues, infra)
    ensures RouteTargetMissing(id) in issues <==>
            exists t <- infra.routeTables, r <- t.routes :: t.id == id && r.targetRef !in infra.ResourceIds()
  {
  }

  lemma RepeatedExactly(infra: Infrastructure, issues: seq<Issue>, id: string)
    requires RouteReport(issues, infra)
    ensures DuplicateRouteDestination(id) in issues <==>
            exists t <- infra.routeTables ::
              t.id == id && exists j, k | 0 <= j < k < |t.routes| :: t.routes[j].destination == t.routes[k].destination
  {
    if t :| t in infra.routeTables && t.id == id
            && exists j, k | 0 <= j < k < |t.routes| :: t.routes[j].destination == t.routes[k].destination {
      assert HasRepeatedDestination(t.routes);
    }
  }

  lemma UnroutedExactly(infra: Infrastructure, issues: seq<Issue>, id: string)
    requires RouteReport(issues, infra)
    ensures SubnetWithoutRouteTable(id) in issues <==>
            (exists s <- infra.subnets :: s.id == id) && forall t <- infra.routeTables :: id !in t.associatedSubnetIds
  {
  }

  lemma GatewayIssuesExactly(infra: Infrastructure, issues: seq<Issue>, id: string)
    requires RouteReport(issues, infra)
    ensures NatGatewayWithoutSubnet(id) in issues <==>
            exists g <- infra.gateways :: g.id == id && g.kind == Nat && g.subnetId == None
    ensures PeeringArity(id) in issues <==>
            exists g <- infra.gateways :: g.id == id && g.kind == Peering && |g.peerNetworkIds| != 2
  {
  }

  /** Two kinds of issue are only warnings: a small subnet and a subnet without a table. */
  lemma ErrorsExactly(i: Issue)
    ensures i.IsError() <==> !(exists id :: i == SubnetTooSmall(id) || i == SubnetWithoutRouteTable(id))
  {
  }
}
