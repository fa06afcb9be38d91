/** What the fields of cloud resources may name: nothing, or a resource of the right kind. */
module FieldKinds {
  import opened CloudModel
  import opened Wrappers

  predicate IsNetwork(infra: Infrastructure, id: string) {
    exists n <- infra.networks :: n.id == id
  }

  predicate IsSubnet(infra: Infrastructure, id: string) {
    exists s <- infra.subnets :: s.id == id
  }

  predicate IsGateway(infra: Infrastructure, id: string) {
    exists g <- infra.gateways :: g.id == id
  }

  predicate IsInstance(infra: Infrastructure, id: string) {
    exists c <- infra.compute :: c.id == id
  }

  predicate IsGroup(infra: Infrastructure, id: string) {
    exists g <- infra.securityGroups :: g.id == id
  }

  predicate NetworkOnly(infra: Infrastructure, id: string) {
    id in infra.ResourceIds() ==> IsNetwork(infra, id)
  }

  predicate SubnetOnly(infra: Infrastructure, id: string) {
    id in infra.ResourceIds() ==> IsSubnet(infra, id)
  }

  predicate InstanceOnly(infra: Infrastructure, id: string) {
    id in infra.ResourceIds() ==> IsInstance(infra, id)
  }

  predicate GroupOnly(infra: Infrastructure, id: string) {
    id in infra.ResourceIds() ==> IsGroup(infra, id)
  }

  /** Routes go to gateways, or through instances. */
  predicate TargetOnly(infra: Infrastructure, id: string) {
    id in infra.ResourceIds() ==> IsGateway(infra, id) || IsInstance(infra, id)
  }

  predicate TableRight(infra: Infrastructure, t: RouteTable) {
    && NetworkOnly(infra, t.networkId)
    && (forall r <- t.routes :: TargetOnly(infra, r.targetRef))
    && (forall id <- t.associatedSubnetIds :: SubnetOnly(infra, id))
  }

  predicate GatewayRight(infra: Infrastructure, g: Gateway) {
    && (g.networkId.Some? ==> NetworkOnly(infra, g.networkId.value))
    && (g.subnetId.Some? ==> SubnetOnly(infra, g.subnetId.value))
    && (forall id <- g.peerNetworkIds :: NetworkOnly(infra, id))
  }

  predicate RuleRight(infra: Infrastructure, r: SecurityRule) {
    r.sourceSecurityGroupId.Some? ==> GroupOnly(infra, r.sourceSecurityGroupId.value)
  }

  predicate GroupRight(infra: Infrastructure, g: SecurityGroup) {
    NetworkOnly(infra, g.networkId) && forall r <- g.rules :: RuleRight(infra, r)
  }

  predicate InstanceRight(infra: Infrastructure, c: ComputeInstance) {
    && (c.subnetId.Some? ==> SubnetOnly(infra, c.subnetId.value))
    && (forall nic <- c.interfaces :: SubnetOnly(infra, nic.subnetId))
    && (forall id <- c.securityGroupIds :: GroupOnly(infra, id))
  }

  predicate DatabaseRight(infra: Infrastructure, d: Database) {
    (forall id <- d.subnetIds :: SubnetOnly(infra, id)) && forall id <- d.securityGroupIds :: GroupOnly(infra, id)
  }

  predicate BalancerRight(infra: Infrastructure, b: LoadBalancer) {
    && (b.networkId.Some? ==> NetworkOnly(infra, b.networkId.value))
    && (forall id <- b.subnetIds :: SubnetOnly(infra, id))
    && (forall id <- b.securityGroupIds :: GroupOnly(infra, id))
    && (forall id <- b.targetComputeIds :: InstanceOnly(infra, id))
  }

  /** Whatever a field names is of the kind the field is for. */
  predicate FieldsRight(infra: Infrastructure) {
    && (forall s <- infra.subnets :: NetworkOnly(infra, s.networkId))
    && (forall t <- infra.routeTables :: TableRight(infra, t))
    && (forall g <- infra.gateways :: GatewayRight(infra, g))
    && (forall g <- infra.securityGroups :: GroupRight(infra, g))
    && (forall c <- infra.compute :: InstanceRight(infra, c))
    && (forall d <- infra.databases :: DatabaseRight(infra, d))
    && (forall b <- infra.loadBalancers :: BalancerRight(infra, b))
  }
}
