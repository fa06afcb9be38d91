/** The network diagram: devices, links and addressed interfaces. */
module NetworkModel {
  import opened Wrappers
  import opened Addressing

  datatype NodeType =
    | Router | Switch | Firewall | Server | DatabaseServer | Pc | Balancer | AccessPoint
    | GatewayDevice | Cloud | Storage | InternetCloud | Unknown

  datatype Node = Node(id: string, kind: NodeType, displayName: string) {
    /** Devices that terminate layer 3 and forward for others. */
    predicate IsL3Forwarder() {
      kind.Router? || kind.Firewall? || kind.GatewayDevice? || kind.Balancer?
    }

    /** Devices that form a broadcast domain rather than ending one. */
    predicate IsL2() {
      kind.Switch? || kind.AccessPoint?
    }
  }

  datatype LinkEndpoint = LinkEndpoint(nodeId: string, interfaceId: Option<string>)

  datatype Edge = Edge(source: LinkEndpoint, target: LinkEndpoint) {
    predicate Connects(nodeId: string) {
      source.nodeId == nodeId || target.nodeId == nodeId
    }
  }

  datatype Interface = Interface(
    id: string, nodeId: string, name: string, addresses: seq<IPAddressSpec>, vlanId: Option<nat>)
  {
    function PrimaryAddress(): Option<IPAddressSpec> {
      if addresses == [] then None else Some(addresses[0])
    }

    /** The subnet of the first address that carries a prefix. */
    function FirstSubnet(): (s: Option<SubnetSpec>)
      ensures s.Some? <==> exists a <- addresses :: a.prefixLength.Some?
    {
      FirstSubnetOf(addresses)
    }
  }

  function FirstSubnetOf(addresses: seq<IPAddressSpec>): (s: Option<SubnetSpec>)
    ensures s.Some? <==> exists a <- addresses :: a.prefixLength.Some?
  {
    if addresses == [] then None
    else if addresses[0].prefixLength.Some? then addresses[0].Subnet()
    else
      var rest := FirstSubnetOf(addresses[1..]);
      assert forall a :: a in addresses <==> a == addresses[0] || a in addresses[1..];
      rest
  }

  /** A document that passed its own integrity check: ids are unique and refer to something. */
  datatype NetworkArchitecture = NetworkArchitecture(nodes: seq<Node>, interfaces: seq<Interface>, edges: seq<Edge>) {
    function NodeById(id: string): (r: Option<Node>)
      ensures r.Some? ==> r.value in nodes && r.value.id == id
      ensures r.None? ==> forall n <- nodes :: n.id != id
    {
      FirstNode(nodes, id)
    }

    predicate KnowsInterface(id: string) {
      exists i <- interfaces :: i.id == id
    }

    predicate Refers(e: LinkEndpoint) {
      NodeById(e.nodeId).Some? && (e.interfaceId.Some? ==> KnowsInterface(e.interfaceId.value))
    }

    predicate WellFormed() {
      && (forall j, k :: 0 <= j < k < |nodes| ==> nodes[j].id != nodes[k].id)
      && (forall j, k :: 0 <= j < k < |interfaces| ==> interfaces[j].id != interfaces[k].id)
      && (forall i <- interfaces :: NodeById(i.nodeId).Some?)
      && (forall e <- edges :: Refers(e.source) && Refers(e.target))
    }

    predicate IsForwarder(id: string) {
      var n := NodeById(id);
      n.Some? && n.value.IsL3Forwarder()
    }
  }

  function FirstNode(nodes: seq<Node>, id: string): (r: Option<Node>)
    ensures r.Some? ==> r.value in nodes && r.value.id == id
    ensures r.None? ==> forall n <- nodes :: n.id != id
  {
    if nodes == [] then None
    else if nodes[0].id == id then Some(nodes[0])
    else
      var rest := FirstNode(nodes[1..], id);
      assert forall n :: n in nodes <==> n == nodes[0] || n in nodes[1..];
      rest
  }
}
