# TopoForge-AI: a model of the deterministic core, in Dafny

The system reads a network diagram, translates the validated network into a typed cloud
architecture, prints Terraform and Ansible from it, and applies the result only behind an approval
gate. This project models the deterministic parts and proves what they promise: graph search,
address arithmetic, the cloud assembler and the independent validators that judge its output, the
Terraform mapping layer seen as a compiler, the YAML and HCL printers, the workflow as a state
machine, and the chain from an approval to the files it covers.

`dafny verify dfyconfig.toml` checks everything.

## How it is laid out

- Addresses: `Addressing` (blocks of CIDR, section 3.1 of RFC 4632), `NetworkText` and `SpanClaims`
  (masks, parsing, the four passes over one text).
- Translation: `NetworkModel`, `Segments` (a class for a broadcast domain, updated in place as the
  source does), `CloudAssembler`, then what is proved of it in `AssemblyFacts`, `AssemblerTheorems`,
  `AssemblyAccepted` and `RouteTheorems`, and small networks that are assembled and then reported in
  `AssemblyExamples`. `SegmentMembers` and `AssemblyMeaning` say what every part of an assembly is,
  over the network and the plan alone.
- Judgement: `CloudModel`, `CloudValidators`, and `ValidatorMeaning`, which says for each issue when it
  is raised, in addresses.
- Generation: `Terraform`, `TerraformMapping` (a class for the mapping context); `TerraformMeaning` and
  `TerraformReports`, which say what is generated argument by argument; `TerraformScoping`,
  `TerraformTheorems`, `TerraformTyping` (with `FieldKinds`) and `ValidatedTerraform`; for assembled
  architectures `TranslationToTerraform`, `AssembledFields` and `AssembledTyping`; `Hcl`;
  `YamlWriter`, `YamlQuoting`, an independent `YamlReader`, and `YamlScalars`, `YamlRoundTrip`,
  `YamlFidelity`, `YamlDocument`; `RoleOrdering`.
- Control: `GraphSpec`, `Workflow`, `Approval`, `Provenance`, and `Topology` for the diagram itself.
- Support: `Wrappers`, `Lists`, `Text`, `Decimal`, `Framing`, `Slugs`, `Sorting`, `Counting`,
  `Reachability`.

Loops and in-place updates of the source are methods with invariants; each is tied to a
specification function or predicate, and the properties are proved of that.

## What the code does that its documentation does not say

- `validate_terraform` branches only on whether there is configuration, so on the `skip` path the
  generation gate is never asked: Terraform that failed its validation can be planned, approved and
  applied. `collect_outputs` has an unconditional edge beside its conditional ones, so the inventory
  stage can follow that apply although there is nothing to configure
  (`Workflow.ApplyWithoutValidation`).
- The YAML writer decides by a few patterns what to print bare, and readers take more for numbers
  and dates than those patterns do. The reader here takes a text only where version 1.1, which the
  writer's comment names, and version 1.2.2 agree, and these do not come back:
  - string keys such as `10`, `yes`, `null` or `0x1F`, which are never quoted
    (`YamlFidelity.TypedKeyLost`; the exact set is `YamlScalars.KeyReadsBackIff`);
  - strings such as `0x1F`, `12:34:56:12:34:56`, `1_000`, `0b11`, `2024-01-01`, `=` and `<<`
    (`YamlScalars.HexadecimalIsMisread`, `YamlScalars.HardwareAddressIsDisputed`; the exact set of
    strings that survive is `YamlScalars.StringReadsBackIff`);
  - numeric strings and plain keys that end in a line break, which is printed raw
    (`YamlScalars.NumericLineBreaks`), and strings with control characters, carriage returns, the
    Unicode line breaks or a byte order mark, for which there is no escape
    (`YamlScalars.BellIsRefused`);
  - floats whose text has no point: infinities, not-a-number and `1e+16`
    (`YamlScalars.FloatReadsBackIff`);
  - keys whose text is longer than 1024 characters;
  - an empty list or mapping directly inside a list, which becomes text;
  - a whole document that is `...` or a bare text after `...` and a space, the document end marker
    (`YamlFidelity.EndMarkerLost`).

  That these are all is `YamlFidelity.RoundTripIff`, and `YamlDocument.DocumentRoundTripIff` for the
  whole text.
- `private_ip` is the first address of an interface, its subnet comes from the first address with a
  prefix, so the two can disagree (`AssemblerTheorems.AddressesStayInside`,
  `AssemblyExamples.AssembleUplink`).
- IPv6 segments are put in an IPv4 block (`AssemblerTheorems.SubnetsStayInside`,
  `AssemblyExamples.AssembleDualHost`).
- Peering and a transit gateway together give every table a repeated destination
  (`RouteTheorems.RoutesAcceptedIff`, `AssemblyExamples.AssemblePair`).
- Addresses are indexed before mappers run, so a reference to a resource its mapper drops dangles
  (`TerraformTheorems.WellScopedIff`). The validators do not catch this: a route to a VPN gateway
  passes them and dangles (`ValidatedTerraform.VpnRouteDangles`), and so can a route to any of the
  resources listed by `ValidatedTerraform.ValidatedDropsIff`.
- Replaying an extraction keeps the winner of a merge but lengthens its trail, so it is not
  idempotent as a whole (`Provenance.ReplayKeepsWinner`).

## Model

| member | source | states |
|---|---|---|
| Addressing.Laminar | src/domain/network/models.py:108-116 | two blocks of one family are nested or share no address |
| Addressing.WidthsAre | src/domain/network/models.py:88-100 | IPv4 addresses have 32 bits and IPv6 addresses 128 |
| Addressing.OverlapsIffNested | src/domain/network/models.py:108-111 | `overlaps` holds exactly when one block contains the other, and exactly when some address is in both |
| Addressing.SubnetOfIffAddresses | src/domain/network/models.py:113-116 | containment of blocks is containment of their addresses |
| Addressing.RawAddressSpec.Subnet | src/domain/network/models.py:165-169 | an address has a subnet exactly when its prefix is known; the subnet has that prefix and holds the address |
| Addressing.NetworkOfUnique | src/domain/network/models.py:165-169 | the canonical block of a given length around an address is unique |
| Addressing.CoveringSupernet | src/infrastructure/rag/cloud_assembler.py:996-1011 | the result is an IPv4 block that contains every IPv4 input and lies inside any other block that does; none exactly when no input is IPv4; the widening terminates |
| Addressing.LeastCoverUnique | src/infrastructure/rag/cloud_assembler.py:996-1011 | order and repetition of the inputs do not change the covering block |
| NetworkText.NetmaskAccepted | src/domain/network/parsing.py:160-181 | a dotted mask is accepted exactly when its ones are contiguous from the top, or it is the complement of such a mask with both digits; the prefix is the run's length |
| NetworkText.MaskRoundTrip | src/domain/network/parsing.py:184-191 | a prefix printed as a mask reads back as the prefix |
| NetworkText.ParseCidr | src/domain/network/parsing.py:197-227 | accepted exactly when address and prefix parse and the prefix fits the family; a refusal always carries an issue |
| NetworkText.CidrExactly | src/domain/network/parsing.py:197-227 | which address and prefix come of `address/prefix`, and for each kind of issue exactly when it is reported |
| NetworkText.HostBitsExactly | src/domain/network/parsing.py:421-440 | a network or broadcast address is reported exactly when the host bits are all zeros, or in IPv4 all ones, and the prefix leaves at least two of them |
| NetworkText.ParseIpAndMaskIff | src/domain/network/parsing.py:230-250 | an address and a mask give that address with prefix p exactly when the mask is that of p, or its complement for p strictly between 0 and 32 |
| SpanClaims.ApplyKeepsSound | src/domain/network/parsing.py:305-309 | claiming a free span keeps claimed spans disjoint, every accepted value on its own claimed span, every claimed span accounted for |
| SpanClaims.Pass | src/domain/network/parsing.py:311-385 | one pass gives up nothing found before, adds only what its own matches yield, and settles every match |
| SpanClaims.OverlapMeans | src/domain/network/parsing.py:305-309 | spans overlap exactly when they have a position in common |
| NetworkText.ColonExactly | src/domain/network/parsing.py:312-323 | what an IPv6 CIDR match yields, reports and claims, and when it is passed over |
| NetworkText.DottedExactly | src/domain/network/parsing.py:325-336 | the same for an IPv4 CIDR match |
| NetworkText.MaskExactly | src/domain/network/parsing.py:338-357 | the same for an address with a mask |
| NetworkText.BareExactly | src/domain/network/parsing.py:359-385 | the same for a bare address |
| NetworkText.ParseNetworkText | src/domain/network/parsing.py:299-418 | after the passes claimed spans are disjoint, every dotted quad overlaps one, a prefix is known exactly for the stronger forms, no invalid mask is reported, and the subnets are exactly the distinct subnets of prefixed addresses |
| NetworkText.DeriveSubnets | src/domain/network/parsing.py:412-416 | the derived subnets are distinct, exactly those of the addresses, and in the order they first appear |
| Topology.Adjacency | src/domain/topology/models.py:167-174 | each known node lists exactly its neighbours |
| Topology.ShortestPath | src/domain/topology/models.py:205-225 | a real path that no other path beats, or none exactly when no path exists; walking back terminates |
| Topology.WalkBack | src/domain/topology/models.py:214-222 | following `previous` from a discovered node spells a path from the source of exactly the discovered distance |
| Topology.ConnectedComponents | src/domain/topology/models.py:182-200 | the components are disjoint, cover the nodes, and are the classes of mutual reachability |
| Topology.ComponentsDecidePaths | src/domain/topology/models.py:182-225 | two known nodes share a component exactly when a path joins them |
| Topology.IsConnected | src/domain/topology/models.py:202-203 | connected means every two known nodes are joined |
| Segments.Segment.constructor | src/infrastructure/rag/cloud_assembler.py:124-140 | a new segment is empty but for its subnet and VLAN |
| Segments.Segment.AddInterface | src/infrastructure/rag/cloud_assembler.py:257-260 | the interface and its node join, the first known VLAN stays |
| Segments.Segment.AttachSwitch | src/infrastructure/rag/cloud_assembler.py:288-290 | the switch joins the nodes and the switch list |
| Segments.Segment.MarkTransport | src/infrastructure/rag/cloud_assembler.py:324-325 | only the transport flag changes |
| Segments.GroupInterfaces | src/infrastructure/rag/cloud_assembler.py:242-260 | the objects built in the loop are fresh and distinct and hold the groups of the interfaces |
| Segments.GroupsGrouped | src/infrastructure/rag/cloud_assembler.py:242-260 | one group for each subnet some interface is on, holding exactly what is on it |
| Segments.FarEnds | src/infrastructure/rag/cloud_assembler.py:269-277 | the far interfaces and far nodes of a node's edges |
| Segments.AttachSwitches | src/infrastructure/rag/cloud_assembler.py:266-290 | every segment ends with exactly the switches that attach, in node order, each seeing the ones before it |
| Segments.MarkTransit | src/infrastructure/rag/cloud_assembler.py:292-300 | a segment is transit exactly when it has two or more members, all of them forwarders |
| Segments.DiscoverSegments | src/infrastructure/rag/cloud_assembler.py:233-302 | exactly one segment for each subnet some interface is on, sorted by id, none lost or repeated by the sorting |
| Segments.ChooseOwner | src/infrastructure/rag/cloud_assembler.py:319-328 | no owner exactly when two or more forwarders share the segment; otherwise exactly one forwarder owns it |
| Segments.DiscoverDomains | src/infrastructure/rag/cloud_assembler.py:304-329 | each forwarder's list holds the segments it owns, in order; only transport flags change, and exactly for shared segments |
| Segments.Snapshot | src/infrastructure/rag/cloud_assembler.py:344-345 | the domains by ascending forwarder |
| AssemblyFacts.JoinersAreSwitches | src/infrastructure/rag/cloud_assembler.py:266-290 | a node without an interface on a segment is on it only as a switch or access point |
| SegmentMembers.FirstSubnetMeans | src/infrastructure/rag/cloud_assembler.py:242-250 | the subnet of an interface is that of its first address with a prefix |
| SegmentMembers.NodeOnExactly | src/infrastructure/rag/cloud_assembler.py:242-290 | a node is on a segment exactly when one of its interfaces is or it joined as a switch |
| SegmentMembers.SwitchJoinsExactly | src/infrastructure/rag/cloud_assembler.py:266-290 | over the edges: a switch joins exactly when a link of its ends at an interface of the segment, or when none of its links names an interface and a neighbour was on the segment when its turn came |
| SegmentMembers.SwitchStaysOff | src/infrastructure/rag/cloud_assembler.py:276-283 | a switch whose links name interfaces elsewhere stays off, even next to a router of the segment |
| SegmentMembers.FlagsExactly | src/infrastructure/rag/cloud_assembler.py:292-328 | transit exactly when two or more members all forward; transport exactly when two forwarders share the segment |
| AssemblyFacts.SegmentHolds | src/infrastructure/rag/cloud_assembler.py:242-260 | an interface is on a segment exactly when its first prefixed address is in the segment's subnet, and then its node is on it too |
| AssemblyFacts.InterfaceInOneSegment | src/infrastructure/rag/cloud_assembler.py:242-260 | an interface with a prefixed address is in one segment and in no other, and the lookup finds it |
| AssemblyFacts.TransportInNoDomain | src/infrastructure/rag/cloud_assembler.py:319-327 | a segment on several forwarders goes to no domain |
| AssemblyFacts.SegmentInOneDomain | src/infrastructure/rag/cloud_assembler.py:319-329 | any other segment goes to exactly one domain |
| CloudAssembler.NetworksAndSubnets | src/infrastructure/rag/cloud_assembler.py:331-404 | each domain with an IPv4 segment gives one network, with the least covering block, and a subnet for each segment; each other non-empty domain is reported |
| AssemblyMeaning.DomainsExactly | src/infrastructure/rag/cloud_assembler.py:304-329 | a segment is in the domain of a forwarder exactly when that is the one forwarder on it; one without a forwarder is with the first of them |
| AssemblyMeaning.NetworksExactly | src/infrastructure/rag/cloud_assembler.py:331-404 | the networks are exactly those of the domains with an IPv4 segment, each with its name and least covering block |
| AssemblyMeaning.SubnetsExactly | src/infrastructure/rag/cloud_assembler.py:366-404 | the subnets are exactly those of the segments of such domains, with block, flags and network |
| CloudAssembler.Gateways | src/infrastructure/rag/cloud_assembler.py:420-517 | only the gateways asked for: internet and NAT for each network with subnets, peering for exactly two networks, transit for two or more |
| AssemblyMeaning.GatewaysExactly | src/infrastructure/rag/cloud_assembler.py:420-517 | exactly those the plan asks for: on each network, in the first subnet of each, one peering of two networks, one transit gateway of two or more |
| CloudAssembler.CheckTransport | src/infrastructure/rag/cloud_assembler.py:521-563 | every transport segment is reported, and the warning appears exactly when links, several networks and no transport meet |
| CloudAssembler.RoutesFor | src/infrastructure/rag/cloud_assembler.py:576-608 | default route first, then one route through each shared gateway to each other peer |
| CloudAssembler.RouteTables | src/infrastructure/rag/cloud_assembler.py:566-618 | one table for each network with subnets, associated with all of them |
| AssemblyMeaning.RoutesExactly | src/infrastructure/rag/cloud_assembler.py:576-608 | the routes of a network: out through the internet gateway if there is one and through the NAT gateway otherwise, then to each other network through the peering, then through the transit gateway |
| AssemblyMeaning.TablesExactly | src/infrastructure/rag/cloud_assembler.py:566-618 | there is exactly one such table for each network, with all its subnets |
| AssemblyFacts.GroupsAreFirewalls | src/infrastructure/rag/cloud_assembler.py:620-654 | there is one security group for each firewall, and every group is that of a firewall |
| AssemblyMeaning.GroupsExactly | src/infrastructure/rag/cloud_assembler.py:620-686 | the groups are exactly those of the firewalls, in the first network, with the rules of the plan |
| CloudAssembler.PlaceInterfaces | src/infrastructure/rag/cloud_assembler.py:720-742 | an interface becomes one of the instance's exactly when its segment became a subnet |
| CloudAssembler.PlaceCompute | src/infrastructure/rag/cloud_assembler.py:688-769 | the instances and the notes of every node, in order |
| AssemblyMeaning.InstancesExactly | src/infrastructure/rag/cloud_assembler.py:688-769 | a component becomes an instance exactly when the plan says compute, or says nothing and its kind is one of six, and an interface of its has a subnet |
| AssemblyMeaning.InstanceMeans | src/infrastructure/rag/cloud_assembler.py:744-769 | what the instance of a component is |
| AssemblyMeaning.InterfacesExactly | src/infrastructure/rag/cloud_assembler.py:720-742 | its interfaces are exactly those of the component whose segment became a subnet: with the first address, primary when first, unchecked on a forwarder |
| AssemblyMeaning.UnmappedExactly | src/infrastructure/rag/cloud_assembler.py:154-228 | for each kind of report, exactly when it is made: a domain without a block, a transport link, a component not recognised, a component not placed |
| CloudAssembler.Assemble | src/infrastructure/rag/cloud_assembler.py:154-228 | the whole assembly is the one the specification describes, and is refused exactly when the architecture's integrity check refuses it |
| AssemblerTheorems.SegmentConserved | src/infrastructure/rag/cloud_assembler.py:233-404 | conservation: a segment is transport, reported and no subnet; or in one domain, where it becomes exactly one subnet of that domain's network, unless the domain has no IPv4 segment and is reported |
| AssemblerTheorems.OutsideIffIPv6 | src/infrastructure/rag/cloud_assembler.py:996-1011 | an assembled subnet lies outside its network exactly when it is IPv6 |
| AssemblerTheorems.SubnetsStayInside | src/domain/cloud/validators.py:64-88 | on assembled output `subnet_outside_network` is raised exactly when a domain mixes IPv4 and IPv6 segments |
| AssemblerTheorems.IPv4StaysInside | src/domain/cloud/validators.py:64-88 | never for an IPv4 network |
| AssemblerTheorems.NeverUnplaced | src/domain/cloud/validators.py:135-216 | on assembled output `compute_not_placed` and `forwarder_with_source_dest_check` are never raised |
| AssemblerTheorems.AddressesStayInside | src/domain/cloud/validators.py:135-216 | `address_outside_subnet` is raised exactly when a placed interface's first address lies outside the subnet of its first prefixed address |
| AssemblerTheorems.LeadingPrefixStaysInside | src/infrastructure/rag/cloud_assembler.py:729-734 | never when interfaces lead with a prefixed address |
| AssemblerTheorems.AssemblyPassesValidators | src/domain/cloud/validators.py:64-216 | the four placement issues together: none for an IPv4 network whose interfaces lead with a prefixed address |
| AssemblerTheorems.PlacedIff | src/infrastructure/rag/cloud_assembler.py:722-726 | an interface is placed exactly when its segment is in a domain that has a block |
| AssemblerTheorems.ForwarderStaysHome | src/infrastructure/rag/cloud_assembler.py:309-329 | every interface of a layer 3 forwarder is in the network of its own routed domain |
| AssemblerTheorems.AcceptedIffIdsDistinct | src/domain/cloud/models.py:197-237 | construction of an assembled architecture fails exactly when two resource ids coincide |
| AssemblyAccepted.AcceptedIffSlugsApart | src/domain/cloud/models.py:197-204 | with distinct slugs of blocks, it succeeds exactly when the slugs of networks, of instances and of firewalls are apart, each among its own kind |
| AssemblyExamples.LoneHostReported | src/infrastructure/rag/cloud_assembler.py:729-734 | one host whose only interface strays is accepted and then reported, whatever the gateways and names |
| AssemblyExamples.UplinkStrays | src/infrastructure/rag/cloud_assembler.py:244-246 | a concrete interface that strays: 10.0.1.5 without a prefix before 10.0.0.5/24 |
| AssemblyExamples.AssembleUplink | src/infrastructure/rag/cloud_assembler.py:729-734 | assembling a host with that interface is accepted and reports an address outside its subnet |
| AssemblyExamples.AssembleDualHost | src/infrastructure/rag/cloud_assembler.py:996-1011 | assembling a host on an IPv4 and an IPv6 subnet is accepted and reports a subnet outside its network |
| AssemblyExamples.AssemblePair | src/infrastructure/rag/cloud_assembler.py:444-618 | assembling two routers with peering and transit is accepted and reports a repeated destination |
| Slugs.IPv4SlugsApart | src/domain/common/identifiers.py:20-23 | two IPv4 blocks with the same slug are the same block, so segment and subnet ids never collide |
| Slugs.CidrSlug | src/domain/common/identifiers.py:20-23 | the slug of an IPv4 block is its octets and prefix joined by dashes, untrimmed and uncut |
| Slugs.SlugIsWords | src/domain/common/identifiers.py:20-23 | the slug of any text is its words of letters and digits joined by dashes, cut at 48 characters and without a dash at the end; `unnamed` without a word |
| RouteTheorems.OnlyRepeatedDestinations | src/domain/cloud/validators.py:226-307 | on assembled output the route table validator can raise nothing but `duplicate_route_destination` |
| RouteTheorems.RoutesAcceptedIff | src/infrastructure/rag/cloud_assembler.py:444-618 | it accepts exactly when peering and transit are not both made, no two of three or more blocks coincide under transit, and no block is 0.0.0.0/0 beside a default route |
| RouteTheorems.TableRepeats | src/infrastructure/rag/cloud_assembler.py:576-608 | the same condition, table by table |
| RouteTheorems.DefaultRouteIff | src/infrastructure/rag/cloud_assembler.py:577-593 | a network has a default route exactly when the plan asked for internet or NAT |
| RouteTheorems.SubnetHasTable | src/infrastructure/rag/cloud_assembler.py:607-617 | every subnet is associated with the table of its network |
| CloudValidators.ValidateSubnets | src/domain/cloud/validators.py:64-125 | the report lists every misplaced, undersized or overlapping subnet and nothing else |
| ValidatorMeaning.OutsideExactly | src/domain/cloud/validators.py:69-88 | `subnet_outside_network`: some address of the subnet is missing from every block of its network, each in turn |
| ValidatorMeaning.TooSmallExactly | src/domain/cloud/validators.py:89-102 | `subnet_too_small`: the subnet of a known network is a single address |
| ValidatorMeaning.OverlapExactly | src/domain/cloud/validators.py:104-125 | `overlapping_subnets`: two subnets of one network share an address, named in order |
| CloudValidators.ErrorFreeSubnetsPartition | src/domain/cloud/validators.py:64-125 | without errors the subnets of a network are parts of it, pairwise share no address, and hold no more addresses than it has |
| CloudValidators.ValidateComputePlacement | src/domain/cloud/validators.py:135-216 | the report lists exactly the placement issues, clashes included |
| ValidatorMeaning.NotPlacedExactly | src/domain/cloud/validators.py:140-151 | `compute_not_placed`: no subnet and no interfaces |
| ValidatorMeaning.OutsideSubnetExactly | src/domain/cloud/validators.py:153-170 | `address_outside_subnet`: the address is not one of the subnet the interface names |
| ValidatorMeaning.DuplicateExactly | src/domain/cloud/validators.py:172-186 | `duplicate_address`: the last instance before this one with the address, in its own subnet, has another id |
| ValidatorMeaning.ReservedExactly | src/domain/cloud/validators.py:188-201 | `aws_reserved_address`: one of the first four addresses or the last of an IPv4 subnet, and no other |
| ValidatorMeaning.CheckedForwarderExactly | src/domain/cloud/validators.py:203-215 | `forwarder_with_source_dest_check`: a forwarder with a checking interface |
| CloudValidators.LastHolderIsOnly | src/domain/cloud/validators.py:137-190 | without a reported clash the last recorded holder of an address is its only holder |
| CloudValidators.SubnetCapacity | src/domain/cloud/validators.py:135-216 | without errors an IPv4 subnet of n addresses houses at most n - 5 distinct addressed instances, none when n is below 5 |
| CloudValidators.ValidateRouteTables | src/domain/cloud/validators.py:226-307 | the report lists exactly the missing targets, repeated destinations, unassociated subnets and malformed gateways |
| ValidatorMeaning.RepeatedExactly | src/domain/cloud/validators.py:232-262 | `duplicate_route_destination`: two routes of one table have the same destination |
| Terraform.IdentifierIsLegal | src/infrastructure/generators/terraform/mappings/aws.py:54-66 | an identifier starts with a letter and holds only lower-case letters, digits and underscores |
| Terraform.IdentifierIs | src/infrastructure/generators/terraform/mappings/aws.py:59-69 | what is left of a text between underscores, in lower case; a prefix before a leading digit, `resource` for nothing |
| Terraform.IdentifierKeeps | src/infrastructure/generators/terraform/mappings/aws.py:59-69 | a name of letters, digits and underscores only loses its case |
| TerraformMeaning.ZoneIs | src/infrastructure/generators/terraform/mappings/aws.py:694-705 | zones are taken in turn by the subnets of a network, counted in it alone |
| TerraformMeaning.TableSays | src/infrastructure/generators/terraform/mappings/aws.py:179-228 | for any block, place and argument: what a route table, its routes and its associations give, each reference under its own argument |
| TerraformMeaning.GatewaySays | src/infrastructure/generators/terraform/mappings/aws.py:231-343 | the same for each kind of gateway |
| TerraformMeaning.GroupSays | src/infrastructure/generators/terraform/mappings/aws.py:349-401 | the same for security groups and their rules |
| TerraformMeaning.InstanceSays | src/infrastructure/generators/terraform/mappings/aws.py:407-502 | the same for instances, further interfaces and attachments |
| TerraformMeaning.DatabaseSays | src/infrastructure/generators/terraform/mappings/aws.py:505-560 | the same for databases and their subnet groups |
| TerraformMeaning.BalancerSays | src/infrastructure/generators/terraform/mappings/aws.py:563-649 | the same for balancers, target groups, listeners and targets |
| TerraformMeaning.MainSaysExactly | src/infrastructure/generators/terraform/generator.py:77-123 | main.tf gives an argument exactly when a resource of the architecture means it, read off its fields and the index |
| TerraformTyping.WellTypedIff | src/infrastructure/generators/terraform/mappings/aws.py:127-649 | every reference is to the Terraform type and attribute its argument takes, exactly when every known id in a field of an emitted resource is of the kind the field is for |
| TerraformTyping.WellTypedWhenFieldsRight | src/infrastructure/generators/terraform/mappings/aws.py:127-649 | in particular for any infrastructure with distinct ids and fields of the right kinds |
| TerraformTyping.AssociationTies | src/infrastructure/generators/terraform/mappings/aws.py:211-228 | for each table and known associated subnet there is a block with that subnet under `subnet_id` and that table under `route_table_id` |
| AssembledTyping.AssembledTypedIff | src/infrastructure/rag/cloud_assembler.py:154-228 | the references of every accepted assembly are well typed exactly when no rule names a peer that is no group |
| AssembledTyping.AssembledTyped | src/infrastructure/rag/cloud_assembler.py:654-686 | and so always, since the rules of a plan name no peers |
| TerraformReports.OutputsExactly | src/infrastructure/generators/terraform/mappings/aws.py:144-649 | the outputs, and what is published under them |
| TerraformReports.VariablesExactly | src/infrastructure/generators/terraform/mappings/aws.py:446-552 | the variables: the region, a key name for instances without one, credentials for each database |
| TerraformReports.WarningsExactly | src/infrastructure/generators/terraform/mappings/aws.py:92-649 | a warning with this code and subject is given exactly when something of that resource leads nowhere in that way |
| TerraformMapping.MappingContext.constructor | src/infrastructure/generators/terraform/mappings/aws.py:69-83 | a fresh context is empty |
| TerraformMapping.MappingContext.IndexAddresses | src/infrastructure/generators/terraform/generator.py:141-174 | every resource gets an address before emission, a repeated id keeping the last |
| TerraformMapping.MappingContext.MapNetwork | src/infrastructure/generators/terraform/mappings/aws.py:127-146 | the blocks and outputs of a network |
| TerraformMapping.MappingContext.MapSubnet | src/infrastructure/generators/terraform/mappings/aws.py:149-177 | dropped and reported without a known network |
| TerraformMapping.MappingContext.MapRouteTable | src/infrastructure/generators/terraform/mappings/aws.py:180-228 | unknown targets and subnets are skipped, the rest kept in order |
| TerraformMapping.MappingContext.MapGateway | src/infrastructure/generators/terraform/mappings/aws.py:231-346 | each kind of gateway, what it attaches to, and when it is dropped |
| TerraformMapping.MappingContext.MapSecurityGroup | src/infrastructure/generators/terraform/mappings/aws.py:352-402 | rules without a source are skipped rather than opened |
| TerraformMapping.MappingContext.MapCompute | src/infrastructure/generators/terraform/mappings/aws.py:408-507 | the instance, its further interfaces, its outputs and its key variable |
| TerraformMapping.MappingContext.MapDatabase | src/infrastructure/generators/terraform/mappings/aws.py:510-562 | dropped and reported below two known subnets; otherwise its credentials become required variables |
| TerraformMapping.MappingContext.MapLoadBalancer | src/infrastructure/generators/terraform/mappings/aws.py:565-648 | target groups, listeners and targets, none without a known network |
| TerraformMapping.Generate | src/infrastructure/generators/terraform/generator.py:77-123 | the project is the one specified, refused exactly when nothing was mapped; the warnings are those specified, and every resource that comes to nothing is among them |
| TerraformScoping.EmittedIff | src/infrastructure/generators/terraform/mappings/aws.py:149-590 | when each mapper drops its resource, read off the resource's fields |
| TerraformScoping.UsesAccounted | src/infrastructure/generators/terraform/mappings/aws.py:127-648 | whatever a resource's blocks refer to is among them, an id the resource uses, a variable it asks for, a declared data source, or its image expression |
| TerraformScoping.IdMentioned | src/infrastructure/generators/terraform/mappings/aws.py:85-90 | an emitted resource refers to every known id it uses |
| TerraformScoping.ScopedWhenComplete | src/infrastructure/generators/terraform/generator.py:77-272 | with nothing used but dropped and every image name resolved, every reference, variable and data source in main.tf and outputs.tf is declared |
| TerraformTheorems.OnlyOwnResource | src/infrastructure/generators/terraform/mappings/aws.py:127-648 | a resource's blocks declare no other resource |
| TerraformTheorems.WellScopedIff | src/infrastructure/generators/terraform/generator.py:77-272 | the generated Terraform is well scoped exactly when no emitted resource uses a dropped one and every image printed as a dotted name stands for something declared |
| TerraformTheorems.MeaningExactly | src/infrastructure/generators/terraform/mappings/aws.py:411-413 | an image printed as an expression means something exactly when it is names with dots between them: a variable, a data source or a resource by its first names |
| TerraformTheorems.DataImageResolves | src/infrastructure/generators/terraform/mappings/aws.py:408-414 | the name of the default image, given as an image, is printed as an expression and resolves |
| TerraformTheorems.DroppedTargetBreaks | src/infrastructure/generators/terraform/mappings/aws.py:180-346 | a table that routes to any dropped resource breaks the scoping |
| ValidatedTerraform.ValidatedDropsIff | src/infrastructure/generators/terraform/generator.py:125-139 | what the mappers drop of an architecture whose validators report no error: exactly VPN and virtual private gateways, gateways on or in something unknown, tables and groups of unknown networks, databases and balancers short of known subnets, and instances whose first subnet id is empty |
| ValidatedTerraform.ValidatedScopedIff | src/infrastructure/generators/terraform/generator.py:77-139 | for an architecture the validators accept, well scoped exactly when nothing that stays uses one of those, and image names resolve |
| ValidatedTerraform.UnnoticedCanDangle | src/domain/cloud/validators.py:226-307 | any of those can be referred to: one more table that routes to it passes the validators and breaks the scoping |
| ValidatedTerraform.VpnRouteDangles | src/infrastructure/generators/terraform/mappings/aws.py:339-346 | a concrete accepted architecture: a table that routes to a VPN gateway |
| TranslationToTerraform.AssembledEmitted | src/infrastructure/rag/cloud_assembler.py:154-228 | the mappers drop nothing the assembler builds |
| TranslationToTerraform.AssembledIsWellScopedIff | src/infrastructure/generators/terraform/generator.py:77-272 | the Terraform of any assembled architecture is well scoped exactly when its image names resolve |
| TranslationToTerraform.AssembledIsWellScoped | src/infrastructure/generators/terraform/generator.py:77-272 | in particular always when the plan gives no image expression |
| Hcl.EscapeIsOnePass | src/infrastructure/generators/terraform/hcl.py:37-50 | the seven replacements do not disturb each other: together they are one pass with one character of lookahead |
| Hcl.EscapeRoundTrips | src/infrastructure/generators/terraform/hcl.py:37-50 | a left-to-right decoder returns the text and never meets a template introducer, a line break or the closing quote |
| YamlWriter.RenderLines | src/infrastructure/generators/ansible/yaml_writer.py:80-119 | the lines appended in the loops are the rendered lines of the value |
| YamlWriter.DumpYaml | src/infrastructure/generators/ansible/yaml_writer.py:122-130 | header, document marker and body joined as specified |
| YamlQuoting.NumericIff | src/infrastructure/generators/ansible/yaml_writer.py:29 | the pattern for numbers takes exactly a sign, digits with a point among, before or after them, and a power, in the digits of any script |
| YamlQuoting.PrintedBareIff | src/infrastructure/generators/ansible/yaml_writer.py:36-69 | a string is printed without quotes exactly when it opens no template, spells no other type and no number, and is a token or a phrase |
| YamlQuoting.KeyBareIff | src/infrastructure/generators/ansible/yaml_writer.py:76-77 | a key is printed without quotes exactly when it is a token, or one before a line break |
| YamlScalars.StringReadsBackIff | src/infrastructure/generators/ansible/yaml_writer.py:48-73 | a string survives printing and reading exactly when it holds no character the writer cannot put on a line and, if printed bare, neither version takes it for a number, date or mark |
| YamlScalars.FloatReadsBackIff | src/infrastructure/generators/ansible/yaml_writer.py:53-54 | a float survives exactly when its text has a point |
| YamlScalars.HexadecimalIsMisread | src/infrastructure/generators/ansible/yaml_writer.py:20-69 | a concrete string that is printed bare and read as a number |
| YamlScalars.HardwareAddressIsDisputed | src/infrastructure/generators/ansible/yaml_writer.py:20-69 | a concrete hardware address that version 1.1 reads as a number and version 1.2.2 as text |
| YamlScalars.BellIsRefused | src/infrastructure/generators/ansible/yaml_writer.py:72-73 | a concrete string whose control character makes the line unreadable |
| YamlScalars.NumericLineBreaks | src/infrastructure/generators/ansible/yaml_writer.py:63-64 | a concrete numeric string whose line break breaks the line in two |
| YamlScalars.KeyReadsBackIff | src/infrastructure/generators/ansible/yaml_writer.py:76-77 | splitting a printed entry at its colon gives the key back exactly when the key is readable; otherwise the line is no entry |
| YamlFidelity.TypedKeyLost | src/infrastructure/generators/ansible/yaml_writer.py:76-77 | concrete keys, 10, yes, null and 0x1F, that never come back |
| YamlRoundTrip.HoistedItemReads | src/infrastructure/generators/ansible/yaml_writer.py:99-112 | a mapping whose first key is hoisted onto the dash line reads as the mapping |
| YamlFidelity.BlockReadsBack | src/infrastructure/generators/ansible/yaml_writer.py:80-119 | a printed value of any depth reads as that value, up to the stated treatment of empty containers in lists and numbers that were text |
| YamlFidelity.NodeSurvives | src/infrastructure/generators/ansible/yaml_writer.py:80-119 | at every depth, a value that is read exactly has only keys and scalars that survive and no empty container in a list |
| YamlFidelity.RoundTripIff | src/infrastructure/generators/ansible/yaml_writer.py:48-119 | whatever is handed to the writer is read back exactly when its keys and scalars survive, no list directly holds an empty container and the whole is no document marker |
| YamlFidelity.EndMarkerLost | src/infrastructure/generators/ansible/yaml_writer.py:119-130 | a concrete document that ends itself |
| YamlFidelity.NoStringPrintsAsAnother | src/infrastructure/generators/ansible/yaml_writer.py:48-69 | no string prints as the text of a null, a boolean or an integer |
| YamlDocument.DocumentReadsBack | src/infrastructure/generators/ansible/yaml_writer.py:122-130 | with header comments and document marker the whole text reads back |
| YamlDocument.DocumentRoundTripIff | src/infrastructure/generators/ansible/yaml_writer.py:122-130 | the exact condition, for the whole text with any header and marker |
| RoleOrdering.Visitor.Visit | src/infrastructure/generators/ansible/generator.py:480-489 | the recursive visit terminates on any requires-graph and adds, each once, the roles reachable from its argument after their requirements, but for those on the stack |
| RoleOrdering.OrderedRoles | src/infrastructure/generators/ansible/generator.py:461-494 | exactly the names reachable from the hosts' roles, each once; a requirement comes first unless it can itself reach its dependent; the order is that of the depth-first visit in order of mention |
| RoleOrdering.RequiresExactly | src/infrastructure/generators/ansible/generator.py:475-489 | a role requires exactly what the last role of its name lists |
| RoleOrdering.FirstsOrder | src/infrastructure/generators/ansible/generator.py:469-473 | names stand in the order of their first mention |
| RoleOrdering.AcyclicOrder | src/infrastructure/generators/ansible/generator.py:461-494 | without cycles, a full topological order |
| RoleOrdering.CycleIsCut | src/infrastructure/generators/ansible/generator.py:480-489 | a two-role cycle is emitted whole, one role before what it requires |
| RoleOrdering.KeepDefinedKeepsOrder | src/infrastructure/generators/ansible/generator.py:147-160 | the play's filter keeps the order |
| RoleOrdering.SitePlays | src/infrastructure/generators/ansible/generator.py:140-195 | one play for each inventory group with something to apply, its roles filtered and in order, the plays in order of first mention |
| RoleOrdering.HostsInOrder | src/domain/cloud/configuration.py:167-168 | the hosts of a group keep their order |
| GraphSpec.SuccessorsMeans | src/infrastructure/orchestration/langgraph/spec.py:63-66 | successors are exactly the targets of direct and conditional edges, each once |
| GraphSpec.PredecessorsConverse | src/infrastructure/orchestration/langgraph/spec.py:68-75 | predecessors are the converse of successors |
| GraphSpec.ReachesFrom | src/infrastructure/orchestration/langgraph/spec.py:77-89 | the worklist answers reachability exactly, and terminates |
| Workflow.FollowsIsDeclared | src/infrastructure/orchestration/langgraph/spec.py:155-226 | every step a run can take is an edge of the declared graph |
| Workflow.GraphIsExact | src/infrastructure/orchestration/langgraph/routing.py:25-135 | every declared edge is taken in some state: no edge is dead, no router leaves the graph |
| Workflow.StepsExactly | src/infrastructure/orchestration/langgraph/routing.py:25-135 | over the fields of the state: from each stage, exactly when a run steps to each other, as to `await_clarification` when there is no error and some required question is not answered |
| Workflow.RunLengthBound | src/infrastructure/orchestration/langgraph/spec.py:155-226 | a run with k returns to clarification takes at most 26 + 3k steps: that loop is the only cycle |
| Workflow.NeverStuck | src/infrastructure/orchestration/langgraph/routing.py:25-135 | every stage but the end has a next one in every state |
| Workflow.PastTheGate | src/infrastructure/orchestration/langgraph/spec.py:172-226 | after network validation there is no way back above it |
| Workflow.EnteredAtMostOnce | src/infrastructure/orchestration/langgraph/spec.py:172-226 | translation, plan and apply are each entered at most once in a run |
| Workflow.OnlyWayInto | src/infrastructure/orchestration/langgraph/spec.py:155-226 | which stages, with which routing facts, can come immediately before each stage on the way to an apply |
| Workflow.ReviewedAfterGeneration | src/infrastructure/orchestration/langgraph/routing.py:89-109 | what led into the deployment review, and whether the generation gate was asked |
| Workflow.ApplyIsGated | src/infrastructure/orchestration/langgraph/routing.py:59-124 | a run entering the apply passed, in order, error-free network validation without blocking gaps, error-free non-empty cloud validation, generation, review, plan, and an approval that is exactly true with an approved record |
| Workflow.ApplyWithoutValidation | src/infrastructure/orchestration/langgraph/spec.py:179-225 | a concrete run that plans and applies Terraform whose validation failed, and then goes to the inventory with nothing to configure |
| Workflow.NothingFlowsBack | src/infrastructure/orchestration/langgraph/spec.py:77-89 | in the declared graph nothing after the translation reaches it again |
| Approval.Checksum | src/domain/deployment/models.py:107-119 | the digest fed in a loop is the digest of the framed fields |
| Approval.OneChangeHashed | src/domain/deployment/models.py:107-119 | what is hashed of a plan with one change, field by field; a missing fingerprint counts as the empty one |
| Approval.ChecksumPinsPlan | src/domain/deployment/models.py:107-119 | equal checksums mean the same fingerprint and the same changes by address |
| Approval.ChecksumIgnoresOrder | src/domain/deployment/models.py:107-119 | the order of changes does not matter |
| Approval.ApprovalPinsPlan | src/domain/deployment/models.py:153-163 | an approval authorises exactly the plans with its id, fingerprint and changes |
| Approval.ConstructIffDistinct | src/domain/generation/models.py:139-145 | a project can be constructed exactly when its paths are distinct |
| Approval.Fingerprint | src/domain/generation/models.py:162-175 | the digest fed in a loop is the digest of the framed files |
| Approval.FingerprintPinsFiles | src/domain/generation/models.py:162-175 | equal fingerprints mean the same paths with the same contents, whatever the order |
| Approval.ApprovalPinsCode | src/domain/deployment/models.py:153-238 | what may be applied under an approval is the change list and the code that were approved |
| Framing.JoinedInjective | src/domain/deployment/models.py:107-119 | fields joined by a separator they do not hold can be told apart again |
| Provenance.Merge | src/domain/common/provenance.py:123-139 | merging two claims keeps all evidence of both |
| Provenance.FirstStrongestWins | src/domain/common/provenance.py:123-139 | over any sequence of claims the first of the strongest wins and no evidence is lost or repeated |
| Provenance.UserWinsDefaultLoses | src/domain/common/provenance.py:46-139 | over any claims the user wins if there is one of the user, and a default only when there is nothing else |
| Provenance.ReplayKeepsWinner | src/domain/common/provenance.py:123-139 | a replayed claim changes neither value nor evidence, but does lengthen the trail |

## Left out

- The retrieval service, the language-model interfaces, vision, storage, subprocess validators, settings, logging and asynchronous code: input and output, with nothing to prove here.
- The compiled graph, which only a docstring mentions, is not part of this model: a run is a causal path through the declared graph, node bodies being arbitrary updates of the state; parallel branches are followed one at a time.
- Workflow.NeverStuck: does not bound the number of returns to the user, because node bodies decide it.
- Regular-expression matching: each pass over a text is given its matches with the parsed pieces; Unicode digits are outside it.
- Interface names, VLAN ids and device hints of `parse_network_text` (steps 5 to 7): independent lists.
- Free-form plan text: four gateway decisions, and for each component a recognised kind or none, an image, and a public flag. Roles, assumptions, references, tags, relationships, configuration hosts, `extra_unmapped` and message texts are not modelled.
- Segments.Snapshot: from here on segments are values, because the source no longer updates them; aliasing between the domain lists and the segment list is modelled up to this point.
- AssemblerTheorems.ForwarderStaysHome: is stated for layer 3 forwarders only, because a multi-homed server may be placed in several networks.
- Slugs.IPv4SlugsApart: covers IPv4 only, because IPv6 texts can share a slug; theorems that need distinct slugs ask for it where IPv6 is allowed. Lower-casing is that of ASCII.
- Terraform blocks are values rather than updated objects, one level of nesting deep. They carry references, variables, data sources, expressions, address blocks, zones, and the flags and texts the mappers decide on; sizes, names, tags and other attributes that are only copied are left out, or appear as a literal where they mark a branch. Alignment, comments, sorting of variables and outputs, tfvars and the README file are not modelled.
- TerraformTheorems.WellScopedIff: asks for ids and Terraform addresses of resources to be unique, because `terraform_identifier` is not injective, and for images printed as expressions to be dotted names: function calls, indexes and the roots `local`, `module`, `path`, `terraform`, `each`, `count` and `self` are not given a meaning. The direction `TerraformScoping.ScopedWhenComplete` asks for no unique labels. Labels of auxiliary blocks may coincide.
- TerraformMapping.Generate: leaves out the provider, validity and emptiness checks at its start and the coverage warnings at its end; what the validity check then guarantees is in `ValidatedTerraform`, for the three validators modelled.
- TerraformMapping.MappingContext.MapNetwork: leaves out the DNS flags and tags.
- TerraformMapping.MappingContext.MapSubnet: leaves out the public flag and tags.
- TerraformMapping.MappingContext.MapRouteTable: leaves out tags and message texts.
- TerraformMapping.MappingContext.MapGateway: leaves out tags and message texts.
- TerraformMapping.MappingContext.MapSecurityGroup: leaves out ports, protocols and descriptions.
- TerraformMapping.MappingContext.MapCompute: leaves out instance type, root volume, device index and tags.
- TerraformMapping.MappingContext.MapDatabase: leaves out engine, size, names and tags.
- TerraformMapping.MappingContext.MapLoadBalancer: leaves out ports, protocols, certificate and scheme.
- NetworkText.ParseCidr: takes the text already split at its slash, so the refusal of text without one is not stated.
- CloudAssembler.NetworksAndSubnets: leaves out relationships, logical names and evidence.
- CloudAssembler.Gateways: leaves out the attachment relationships returned beside the gateways.
- CloudAssembler.PlaceCompute: leaves out roles, instance type, bastion flag and evidence.
- CloudAssembler.Assemble: leaves out configuration hosts and relationships, and so their part of the integrity check.
- AssemblerTheorems.AcceptedIffIdsDistinct: does not cover configuration hosts and relationship endpoints, which are not modelled.
- CloudValidators.ValidateComputePlacement: knows an address by its value, where the source compares texts, so two spellings of one IPv6 address are told apart only there.
- RoleOrdering.SitePlays: leaves out the placeholder play for an empty result and the report of ungrouped hosts.
- Workflow.EnteredAtMostOnce: counts along one causal path, so the two branches after `collect_outputs` are not counted together.
- SHA-256 is a parameter, injective and free of NUL in its text; the plan's fields and file paths are taken to be free of NUL. Revision chains, counts, stages and progress are not modelled.
- Approval.ChecksumPinsPlan: says nothing about fields the checksum does not cover, such as resource types and reasons of a change.
- YAML: tuples as mapping values and keys that are not strings are outside the model, and so are strings that cannot be encoded. A float is known by its text. The reader does not compare keys, which a dictionary keeps apart. Decimal digits beyond ASCII are those of Unicode 14.
- YamlDocument.DocumentRoundTripIff: asks header lines to be single comment lines of printable text, because the writer does not check them.
- The public exposure and configuration coherence validators, the severity bookkeeping of reports, and the other generators' file texts.
- Validators walk dictionaries in insertion order; the order of issues is not modelled, only which issues there are.
- Confidence is a real number; the bounds of zero and one play no part.
- The order in which adjacency-attached switches join a segment follows the node order, as in the source, and no independence of that order is claimed.
