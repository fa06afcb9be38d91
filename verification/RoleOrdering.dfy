/**
 The order in which a playbook applies roles: a depth-first search over what roles require
 that tolerates cycles, and the plays built from it.
 */
module RoleOrdering {
  import opened Wrappers
  import opened Reachability

  datatype SystemRole = SystemRole(name: string, needs: seq<string>)

  datatype ConfigurationHost = ConfigurationHost(name: string, groups: seq<string>, roles: seq<string>)

  datatype Configuration = Configuration(hosts: seq<ConfigurationHost>, roles: seq<SystemRole>)

  datatype Play = Play(group: string, roles: seq<string>)

  /** A dictionary keyed by name keeps the last role of each name. */
  function RoleByName(roles: seq<SystemRole>, name: string): (r: Option<SystemRole>)
    ensures r.Some? <==> exists role <- roles :: role.name == name
  {
    if roles == [] then None
    else if roles[|roles| - 1].name == name then Some(roles[|roles| - 1])
    else RoleByName(roles[..|roles| - 1], name)
  }

  function Names(roles: seq<SystemRole>): set<string> {
    set role <- roles :: role.name
  }

  function Needs(roles: seq<SystemRole>, name: string): seq<string> {
    var role := RoleByName(roles, name);
    if role.Some? then role.value.needs else []
  }

  /** Which role requires which. */
  function RoleGraph(roles: seq<SystemRole>): (g: Graph<string>)
    ensures forall a, b :: Step(g, a, b) <==> b in Needs(roles, a)
  {
    map name <- Names(roles) :: set dependency <- Needs(roles, name)
  }

  predicate IsLastNamed(roles: seq<SystemRole>, name: string, k: nat) {
    k < |roles| && roles[k].name == name && forall j | k < j < |roles| :: roles[j].name != name
  }

  lemma {:induction false} RoleByNameIs(roles: seq<SystemRole>, name: string, k: nat)
    requires IsLastNamed(roles, name, k)
    ensures RoleByName(roles, name) == Some(roles[k])
  {
    var last := |roles| - 1;
    if k < last {
      RoleByNameIs(roles[..last], name, k);
    }
  }

  lemma {:induction false} LastNamed(roles: seq<SystemRole>, name: string) returns (k: nat)
    requires exists role <- roles :: role.name == name
    ensures IsLastNamed(roles, name, k)
  {
    var last := |roles| - 1;
    if roles[last].name == name {
      k := last;
    } else {
      k := LastNamed(roles[..last], name);
    }
  }

  /** A role requires what the last role of its name lists. */
  lemma RequiresExactly(roles: seq<SystemRole>, a: string, b: string)
    ensures Step(RoleGraph(roles), a, b) <==> exists k: nat :: IsLastNamed(roles, a, k) && b in roles[k].needs
  {
    if RoleByName(roles, a).Some? {
      var k := LastNamed(roles, a);
      RoleByNameIs(roles, a, k);
    }
    if k: nat :| IsLastNamed(roles, a, k) && b in roles[k].needs {
      RoleByNameIs(roles, a, k);
      assert roles[k] in roles;
    }
  }

  // ---------- The order itself ----------

  /** The order after visiting a role: unless it is there or being visited, what it requires comes
      first, in the order it lists. */
  function OrderAfter(roles: seq<SystemRole>, name: string, ordered: seq<string>, visiting: set<string>): seq<string>
    decreases Names(roles) - visiting, 0, 0
  {
    if name in ordered || name in visiting then ordered
    else if name !in Names(roles) then ordered + [name]
    else
      var after := OrderAfterAll(roles, Needs(roles, name), ordered, visiting + {name});
      if name in after then after else after + [name]
  }

  function OrderAfterAll(roles: seq<SystemRole>, names: seq<string>, ordered: seq<string>, visiting: set<string>)
    : seq<string>
    decreases Names(roles) - visiting, 1, |names|
  {
    if names == [] then ordered
    else
      var last := |names| - 1;
      OrderAfter(roles, names[last], OrderAfterAll(roles, names[..last], ordered, visiting), visiting)
  }

  lemma OneMoreVisited(roles: seq<SystemRole>, names: seq<string>, k: nat, ordered: seq<string>, visiting: set<string>)
    requires k < |names|
    ensures OrderAfterAll(roles, names[..k + 1], ordered, visiting)
            == OrderAfter(roles, names[k], OrderAfterAll(roles, names[..k], ordered, visiting), visiting)
  {
    assert names[..k + 1][..k] == names[..k];
  }

  /** Each name once, where it is first mentioned. */
  function Firsts(names: seq<string>): (r: seq<string>)
    ensures forall x :: x in r <==> x in names
  {
    if names == [] then []
    else
      var front, last := names[..|names| - 1], names[|names| - 1];
      assert forall x :: x in names <==> x in front || x == last;
      if last in front then Firsts(front) else Firsts(front) + [last]
  }

  predicate IsFirstMention(names: seq<string>, x: string, k: nat) {
    k < |names| && names[k] == x && x !in names[..k]
  }

  lemma FirstsMore(all: seq<string>, front: seq<string>, last: string)
    requires all == front + [last]
    ensures Firsts(all) == if last in Firsts(front) then Firsts(front) else Firsts(front) + [last]
  {
    assert all[..|all| - 1] == front;
  }

  lemma {:induction false} FirstsDistinct(names: seq<string>)
    ensures Distinct(Firsts(names))
  {
    if names != [] {
      FirstsDistinct(names[..|names| - 1]);
    }
  }

  /** Names stand in the order of their first mention. */
  lemma {:induction false} FirstsOrder(names: seq<string>, x: string, y: string, i: nat, j: nat)
    requires IsFirstMention(names, x, i) && IsFirstMention(names, y, j) && i < j
    ensures Precedes(Firsts(names), x, y)
  {
    var last := |names| - 1;
    var front := names[..last];
    assert names[..i] == front[..i];
    if j == last {
      assert front[i] == x && x in Firsts(front);
      var a :| 0 <= a < |Firsts(front)| && Firsts(front)[a] == x;
      assert Firsts(names)[a] == x && Firsts(names)[|Firsts(front)|] == y;
    } else {
      assert names[..j] == front[..j];
      FirstsOrder(front, x, y, i, j);
      var a, b :| 0 <= a < b < |Firsts(front)| && Firsts(front)[a] == x && Firsts(front)[b] == y;
      assert Firsts(names)[a] == x && Firsts(names)[b] == y;
    }
  }

  function Mentions(hosts: seq<ConfigurationHost>, f: ConfigurationHost -> seq<string>): seq<string> {
    if hosts == [] then [] else Mentions(hosts[..|hosts| - 1], f) + f(hosts[|hosts| - 1])
  }

  function RolesOf(): ConfigurationHost -> seq<string> {
    (h: ConfigurationHost) => h.roles
  }

  function GroupsOf(): ConfigurationHost -> seq<string> {
    (h: ConfigurationHost) => h.groups
  }

  lemma MentionsStep(hosts: seq<ConfigurationHost>, k: nat, f: ConfigurationHost -> seq<string>)
    requires k < |hosts|
    ensures Mentions(hosts[..k + 1], f) == Mentions(hosts[..k], f) + f(hosts[k])
  {
    assert hosts[..k + 1][..k] == hosts[..k];
  }

  lemma {:induction false} MentionedBy(hosts: seq<ConfigurationHost>, f: ConfigurationHost -> seq<string>, x: string)
    ensures x in Mentions(hosts, f) <==> exists host <- hosts :: x in f(host)
  {
    if hosts != [] {
      var front, last := hosts[..|hosts| - 1], hosts[|hosts| - 1];
      MentionedBy(front, f, x);
      assert forall host <- hosts :: host in front || host == last;
      assert last in hosts && forall host <- front :: host in hosts;
    }
  }

  /** The loop over the names of one host. */
  method AddMissing(start: seq<string>, names: seq<string>, ghost earlier: seq<string>) returns (added: seq<string>)
    requires start == Firsts(earlier)
    ensures added == Firsts(earlier + names)
  {
    added := start;
    assert earlier + names[..0] == earlier;
    for j := 0 to |names|
      invariant added == Firsts(earlier + names[..j])
    {
      assert earlier + names[..j + 1] == (earlier + names[..j]) + [names[j]];
      FirstsMore(earlier + names[..j + 1], earlier + names[..j], names[j]);
      if names[j] !in added {
        added := added + [names[j]];
      }
    }
    assert names[..|names|] == names;
  }

  /** The order of the roles some hosts need. */
  function OrderFor(hosts: seq<ConfigurationHost>, roles: seq<SystemRole>): seq<string> {
    OrderAfterAll(roles, Firsts(Mentions(hosts, RolesOf())), [], {})
  }

  predicate Distinct(xs: seq<string>) {
    forall i, j :: 0 <= i < j < |xs| ==> xs[i] != xs[j]
  }

  /** Every requirement of the role at each position comes earlier, unless it can itself reach
      that role, which is then on a cycle with it. */
  ghost predicate RequirementsFirst(g: Graph<string>, ordered: seq<string>) {
    forall i, y :: 0 <= i < |ordered| && Step(g, ordered[i], y) ==> y in ordered[..i] || Reaches(g, y, ordered[i])
  }

  /** Nothing is emitted twice or while being visited, and whatever an emitted role requires is
      emitted before it or still being visited. */
  ghost predicate Consistent(g: Graph<string>, ordered: seq<string>, visiting: set<string>) {
    && Distinct(ordered)
    && (forall v <- visiting :: v !in ordered)
    && (forall x, y :: x in ordered && Step(g, x, y) ==> y in ordered || y in visiting)
    && RequirementsFirst(g, ordered)
  }

  lemma EmitKeeps(g: Graph<string>, ordered: seq<string>, visiting: set<string>, name: string)
    requires Consistent(g, ordered, visiting) && name in visiting
    requires forall y :: Step(g, name, y) ==> y in ordered || y in visiting
    requires forall v <- visiting :: Reaches(g, v, name)
    ensures Consistent(g, ordered + [name], visiting - {name})
  {
    var after := ordered + [name];
    forall i, y | 0 <= i < |after| && Step(g, after[i], y) ensures y in after[..i] || Reaches(g, y, after[i]) {
      if i < |ordered| {
        assert after[..i] == ordered[..i];
      } else {
        assert after[..i] == ordered;
      }
    }
  }

  /** What a visit appends is reachable from the visited role. */
  ghost predicate AppendedFrom(g: Graph<string>, before: seq<string>, after: seq<string>, name: string) {
    before <= after && forall i :: |before| <= i < |after| ==> Reaches(g, name, after[i])
  }

  lemma AppendedThrough(g: Graph<string>, a: seq<string>, b: seq<string>, c: seq<string>, name: string, dependency: string)
    requires AppendedFrom(g, a, b, name) && AppendedFrom(g, b, c, dependency) && Step(g, name, dependency)
    ensures AppendedFrom(g, a, c, name)
  {
    StepReaches(g, name, dependency);
    forall i | |a| <= i < |c| ensures Reaches(g, name, c[i]) {
      if i < |b| {
        assert c[i] == b[i];
      } else {
        ReachesTransitive(g, name, dependency, c[i]);
      }
    }
  }

  /** The first `k` requirements are emitted or being visited. */
  predicate Settled(needs: seq<string>, k: nat, ordered: seq<string>, visiting: set<string>)
    requires k <= |needs|
  {
    forall i :: 0 <= i < k ==> needs[i] in ordered || needs[i] in visiting
  }

  lemma SettledGrows(needs: seq<string>, k: nat, before: seq<string>, after: seq<string>, visiting: set<string>)
    requires k < |needs| && before <= after && Settled(needs, k, before, visiting)
    requires needs[k] in after || needs[k] in visiting
    ensures Settled(needs, k + 1, after, visiting)
  {
    forall i | 0 <= i < k && needs[i] in before ensures needs[i] in after {
      assert after[..|before|] == before;
    }
  }

  lemma StackReaches(g: Graph<string>, visiting: set<string>, name: string, dependency: string)
    requires Step(g, name, dependency) && forall v <- visiting :: Reaches(g, v, name)
    ensures forall v <- visiting :: Reaches(g, v, dependency)
  {
    StepReaches(g, name, dependency);
    forall v | v in visiting ensures Reaches(g, v, dependency) {
      ReachesTransitive(g, v, name, dependency);
    }
  }

  /** The state the nested `visit` function shares with its caller. */
  class Visitor {
    const roles: seq<SystemRole>
    var ordered: seq<string>
    var visiting: set<string>

    constructor (roles: seq<SystemRole>)
      ensures this.roles == roles && ordered == [] && visiting == {} && Valid()
    {
      this.roles := roles;
      ordered := [];
      visiting := {};
    }

    ghost predicate Valid()
      reads this
    {
      Consistent(RoleGraph(roles), ordered, visiting)
    }

    method Visit(name: string)
      requires Valid()
      requires forall v <- visiting :: Reaches(RoleGraph(roles), v, name)
      modifies this
      ensures Valid() && visiting == old(visiting)
      ensures name in ordered || name in visiting
      ensures AppendedFrom(RoleGraph(roles), old(ordered), ordered, name)
      ensures ordered == OrderAfter(roles, name, old(ordered), visiting)
      decreases Names(roles) - visiting, 0
    {
      if name in ordered || name in visiting {
        return;
      }
      ghost var stack := visiting;
      visiting := visiting + {name};
      ReachesSelf(RoleGraph(roles), name);
      var role := RoleByName(roles, name);
      if role.Some? {
        VisitNeeds(name, role.value.needs);
      }
      EmitKeeps(RoleGraph(roles), ordered, visiting, name);
      visiting := visiting - {name};
      if name !in ordered {
        ordered := ordered + [name];
      }
      assert visiting == stack;
    }

    /** Visit what a role on the stack requires, in declaration order. */
    method VisitNeeds(name: string, needs: seq<string>)
      requires Valid() && needs == Needs(roles, name)
      requires name in visiting && forall v <- visiting :: Reaches(RoleGraph(roles), v, name)
      modifies this
      ensures Valid() && visiting == old(visiting)
      ensures Settled(needs, |needs|, ordered, visiting)
      ensures AppendedFrom(RoleGraph(roles), old(ordered), ordered, name)
      ensures ordered == OrderAfterAll(roles, needs, old(ordered), visiting)
      decreases Names(roles) - visiting, 1
    {
      for k := 0 to |needs|
        invariant Valid() && visiting == old(visiting)
        invariant Settled(needs, k, ordered, visiting)
        invariant AppendedFrom(RoleGraph(roles), old(ordered), ordered, name)
        invariant ordered == OrderAfterAll(roles, needs[..k], old(ordered), visiting)
      {
        OneMoreVisited(roles, needs, k, old(ordered), visiting);
        assert Step(RoleGraph(roles), name, needs[k]);
        StackReaches(RoleGraph(roles), visiting, name, needs[k]);
        ghost var before := ordered;
        Visit(needs[k]);
        AppendedThrough(RoleGraph(roles), old(ordered), before, ordered, name, needs[k]);
        SettledGrows(needs, k, before, ordered, visiting);
      }
      assert needs[..|needs|] == needs;
    }
  }

  /** The role names the hosts ask for, each once, in order of first mention. */
  method WantedRoles(hosts: seq<ConfigurationHost>) returns (wanted: seq<string>)
    ensures wanted == Firsts(Mentions(hosts, RolesOf()))
    ensures Distinct(wanted)
    ensures forall name :: name in wanted <==> Wanted(hosts, name)
  {
    wanted := [];
    for i := 0 to |hosts|
      invariant wanted == Firsts(Mentions(hosts[..i], RolesOf()))
    {
      MentionsStep(hosts, i, RolesOf());
      wanted := AddMissing(wanted, hosts[i].roles, Mentions(hosts[..i], RolesOf()));
    }
    assert hosts[..|hosts|] == hosts;
    FirstsDistinct(Mentions(hosts, RolesOf()));
    forall name ensures name in wanted <==> Wanted(hosts, name) {
      MentionedBy(hosts, RolesOf(), name);
    }
  }

  predicate Wanted(hosts: seq<ConfigurationHost>, name: string) {
    exists host <- hosts :: name in host.roles
  }

  ghost predicate WantedReaches(hosts: seq<ConfigurationHost>, g: Graph<string>, x: string) {
    exists name :: Wanted(hosts, name) && Reaches(g, name, x)
  }

  /** Exactly the roles reachable from what the hosts ask for, each once, requirements first
      except around a cycle. */
  ghost predicate IsRoleOrder(hosts: seq<ConfigurationHost>, roles: seq<SystemRole>, ordered: seq<string>) {
    && Distinct(ordered)
    && (forall x :: x in ordered <==> WantedReaches(hosts, RoleGraph(roles), x))
    && RequirementsFirst(RoleGraph(roles), ordered)
  }

  method OrderedRoles(hosts: seq<ConfigurationHost>, roles: seq<SystemRole>) returns (ordered: seq<string>)
    ensures IsRoleOrder(hosts, roles, ordered)
    ensures ordered == OrderFor(hosts, roles)
  {
    var wanted := WantedRoles(hosts);
    var visitor := new Visitor(roles);
    for k := 0 to |wanted|
      invariant visitor.Valid() && visitor.roles == roles && visitor.visiting == {}
      invariant fresh(visitor)
      invariant Settled(wanted, k, visitor.ordered, {})
      invariant AllWanted(hosts, RoleGraph(roles), visitor.ordered)
      invariant visitor.ordered == OrderAfterAll(roles, wanted[..k], [], {})
    {
      OneMoreVisited(roles, wanted, k, [], {});
      ghost var before := visitor.ordered;
      assert wanted[k] in wanted;
      visitor.Visit(wanted[k]);
      AppendedWanted(hosts, RoleGraph(roles), before, visitor.ordered, wanted[k]);
      SettledGrows(wanted, k, before, visitor.ordered, {});
    }
    ordered := visitor.ordered;
    assert wanted[..|wanted|] == wanted;
    AllWantedEmitted(hosts, RoleGraph(roles), wanted, ordered);
  }

  ghost predicate AllWanted(hosts: seq<ConfigurationHost>, g: Graph<string>, ordered: seq<string>) {
    forall x <- ordered :: WantedReaches(hosts, g, x)
  }

  lemma AppendedWanted(hosts: seq<ConfigurationHost>, g: Graph<string>, before: seq<string>, after: seq<string>, name: string)
    requires AllWanted(hosts, g, before) && AppendedFrom(g, before, after, name) && Wanted(hosts, name)
    ensures AllWanted(hosts, g, after)
  {
    forall x | x in after ensures WantedReaches(hosts, g, x) {
      var i :| 0 <= i < |after| && after[i] == x;
      if i < |before| {
        assert before[i] == x;
      } else {
        assert Reaches(g, name, x);
      }
    }
  }

  lemma AllWantedEmitted(hosts: seq<ConfigurationHost>, g: Graph<string>, wanted: seq<string>, ordered: seq<string>)
    requires Consistent(g, ordered, {}) && Settled(wanted, |wanted|, ordered, {})
    requires forall name :: name in wanted <==> Wanted(hosts, name)
    ensures forall x :: WantedReaches(hosts, g, x) ==> x in ordered
  {
    forall x | WantedReaches(hosts, g, x) ensures x in ordered {
      var name :| Wanted(hosts, name) && Reaches(g, name, x);
      ClosedUnderReaches(g, (set y | y in ordered), name, x);
    }
  }

  /** Without cycles the order is a full topological order. */
  lemma AcyclicOrder(hosts: seq<ConfigurationHost>, roles: seq<SystemRole>, ordered: seq<string>)
    requires IsRoleOrder(hosts, roles, ordered) && Acyclic(RoleGraph(roles))
    ensures forall i, y :: 0 <= i < |ordered| && y in Needs(roles, ordered[i]) ==> y in ordered[..i]
  {
    forall i, y | 0 <= i < |ordered| && y in Needs(roles, ordered[i]) ensures y in ordered[..i] {
      assert Step(RoleGraph(roles), ordered[i], y);
    }
  }

  /** A two-role cycle is cut rather than refused: both roles are emitted, and one of them comes
      before what it requires. */
  lemma CycleIsCut(hosts: seq<ConfigurationHost>, ordered: seq<string>)
    requires hosts == [ConfigurationHost("h", [], ["a"])]
    requires IsRoleOrder(hosts, [SystemRole("a", ["b"]), SystemRole("b", ["a"])], ordered)
    ensures "a" in ordered && "b" in ordered
    ensures !forall i, y :: 0 <= i < |ordered| && y in Needs([SystemRole("a", ["b"]), SystemRole("b", ["a"])], ordered[i])
              ==> y in ordered[..i]
  {
    var roles := [SystemRole("a", ["b"]), SystemRole("b", ["a"])];
    var g := RoleGraph(roles);
    assert RoleByName(roles, "b") == Some(SystemRole("b", ["a"]));
    assert roles[..1] == [SystemRole("a", ["b"])];
    assert RoleByName(roles[..1], "a") == Some(SystemRole("a", ["b"]));
    assert Needs(roles, "a") == ["b"] && Needs(roles, "b") == ["a"];
    assert hosts[0] in hosts && Wanted(hosts, "a");
    ReachesSelf(g, "a");
    assert WantedReaches(hosts, g, "a");
    assert Step(g, "a", "b");
    StepReaches(g, "a", "b");
    assert WantedReaches(hosts, g, "b");
    assert "a" in ordered && "b" in ordered;
    var x := ordered[0];
    var i :| 0 <= i < |ordered| && ordered[i] == "a";
    var j :| 0 <= j < |ordered| && ordered[j] == "b";
    if i < j {
      assert "b" in Needs(roles, ordered[i]) && "b" !in ordered[..i];
    } else {
      assert "a" in Needs(roles, ordered[j]) && "a" !in ordered[..j];
    }
  }

  // ---------- The playbook ----------

  predicate Precedes(xs: seq<string>, y: string, x: string) {
    exists i, j :: 0 <= i < j < |xs| && xs[i] == y && xs[j] == x
  }

  /** The names a defined role exists for, in their order. */
  function KeepDefined(names: seq<string>, defined: set<string>): (r: seq<string>)
    ensures forall x :: x in r <==> x in names && x in defined
  {
    if names == [] then []
    else
      var front, last := names[..|names| - 1], names[|names| - 1];
      var rest := KeepDefined(front, defined);
      assert forall x :: x in names <==> x in front || x == last;
      if last in defined then rest + [last] else rest
  }

  lemma {:induction false} KeepDefinedKeepsOrder(names: seq<string>, defined: set<string>, y: string, x: string)
    requires y in defined && x in defined && Precedes(names, y, x)
    ensures Precedes(KeepDefined(names, defined), y, x)
  {
    var i, j :| 0 <= i < j < |names| && names[i] == y && names[j] == x;
    var front := names[..|names| - 1];
    var kept := KeepDefined(names, defined);
    if j < |front| {
      assert front[i] == y && front[j] == x;
      KeepDefinedKeepsOrder(front, defined, y, x);
      var a, b :| 0 <= a < b < |KeepDefined(front, defined)|
                  && KeepDefined(front, defined)[a] == y && KeepDefined(front, defined)[b] == x;
      assert kept[a] == y && kept[b] == x;
    } else {
      assert front[i] == y;
      assert y in KeepDefined(front, defined);
      var a :| 0 <= a < |KeepDefined(front, defined)| && KeepDefined(front, defined)[a] == y;
      assert kept[a] == y && kept[|kept| - 1] == x;
    }
  }

  lemma {:induction false} KeepDefinedDistinct(names: seq<string>, defined: set<string>)
    requires Distinct(names)
    ensures Distinct(KeepDefined(names, defined))
  {
    if names != [] {
      var front := names[..|names| - 1];
      KeepDefinedDistinct(front, defined);
      assert names[|names| - 1] !in front;
    }
  }

  predicate InGroup(host: ConfigurationHost, group: string) {
    group in host.groups
  }

  function HostsInGroup(hosts: seq<ConfigurationHost>, group: string): (r: seq<ConfigurationHost>)
    ensures forall host :: host in r <==> host in hosts && InGroup(host, group)
  {
    if hosts == [] then []
    else
      var front, last := hosts[..|hosts| - 1], hosts[|hosts| - 1];
      var rest := HostsInGroup(front, group);
      assert forall host :: host in hosts <==> host in front || host == last;
      if InGroup(last, group) then rest + [last] else rest
  }

  /** The hosts keep their order. */
  lemma {:induction false} HostsInOrder(a: seq<ConfigurationHost>, b: seq<ConfigurationHost>, group: string)
    ensures HostsInGroup(a + b, group) == HostsInGroup(a, group) + HostsInGroup(b, group)
  {
    if b == [] {
      assert a + b == a;
    } else {
      var front, last := b[..|b| - 1], b[|b| - 1];
      HostsInOrder(a, front, group);
      assert (a + b)[..|a + b| - 1] == a + front && (a + b)[|a + b| - 1] == last;
    }
  }

  lemma OneHost(host: ConfigurationHost, group: string)
    ensures HostsInGroup([host], group) == if group in host.groups then [host] else []
  {
    assert [host][..0] == [];
  }

  /** A play applies exactly the defined roles its group's hosts need, each once, and a defined
      role after every defined role it requires unless the two are on a cycle. */
  ghost predicate IsPlayFor(c: Configuration, play: Play) {
    && play.roles != [] && Distinct(play.roles)
    && (forall x :: x in play.roles <==>
          x in Names(c.roles) && WantedReaches(HostsInGroup(c.hosts, play.group), RoleGraph(c.roles), x))
    && (forall x, y :: x in play.roles && y in play.roles && Step(RoleGraph(c.roles), x, y) ==>
          Precedes(play.roles, y, x) || Reaches(RoleGraph(c.roles), y, x))
  }

  ghost predicate NeedsPlay(c: Configuration, group: string) {
    exists x :: x in Names(c.roles) && WantedReaches(HostsInGroup(c.hosts, group), RoleGraph(c.roles), x)
  }

  lemma FilteredIsPlay(c: Configuration, group: string, ordered: seq<string>)
    requires IsRoleOrder(HostsInGroup(c.hosts, group), c.roles, ordered)
    ensures var kept := KeepDefined(ordered, Names(c.roles));
            (kept != [] ==> IsPlayFor(c, Play(group, kept))) && (kept != [] <==> NeedsPlay(c, group))
  {
    var g, defined := RoleGraph(c.roles), Names(c.roles);
    var kept := KeepDefined(ordered, defined);
    KeepDefinedDistinct(ordered, defined);
    forall x, y | x in kept && y in kept && Step(g, x, y) && !Reaches(g, y, x) ensures Precedes(kept, y, x) {
      var i :| 0 <= i < |ordered| && ordered[i] == x;
      assert y in ordered[..i];
      KeepDefinedKeepsOrder(ordered, defined, y, x);
    }
    if kept != [] {
      assert kept[0] in kept;
    }
  }

  predicate SomeGroup(hosts: seq<ConfigurationHost>, group: string) {
    exists host <- hosts :: InGroup(host, group)
  }

  /** What the plays made of some groups are. */
  ghost predicate ArePlays(c: Configuration, groups: seq<string>, plays: seq<Play>) {
    && (forall play <- plays :: play.group in groups && IsPlayFor(c, play))
    && (forall play <- plays ::
          play.roles == KeepDefined(OrderFor(HostsInGroup(c.hosts, play.group), c.roles), Names(c.roles)))
    && (forall group <- groups :: NeedsPlay(c, group) ==> exists play <- plays :: play.group == group)
    && (forall i, j :: 0 <= i < j < |plays| ==> Precedes(groups, plays[i].group, plays[j].group))
  }

  lemma PrecedesLonger(groups: seq<string>, group: string, x: string, y: string)
    requires Precedes(groups, x, y)
    ensures Precedes(groups + [group], x, y)
  {
    var i, j :| 0 <= i < j < |groups| && groups[i] == x && groups[j] == y;
    assert (groups + [group])[i] == x && (groups + [group])[j] == y;
  }

  lemma PrecedesLast(groups: seq<string>, group: string, x: string)
    requires x in groups
    ensures Precedes(groups + [group], x, group)
  {
    var i :| 0 <= i < |groups| && groups[i] == x;
    assert (groups + [group])[i] == x && (groups + [group])[|groups|] == group;
  }

  lemma SkippedPlay(c: Configuration, groups: seq<string>, plays: seq<Play>, group: string)
    requires ArePlays(c, groups, plays) && !NeedsPlay(c, group)
    ensures ArePlays(c, groups + [group], plays)
  {
    forall i, j | 0 <= i < j < |plays| ensures Precedes(groups + [group], plays[i].group, plays[j].group) {
      PrecedesLonger(groups, group, plays[i].group, plays[j].group);
    }
  }

  lemma AddedPlay(c: Configuration, groups: seq<string>, plays: seq<Play>, play: Play)
    requires ArePlays(c, groups, plays) && IsPlayFor(c, play)
    requires play.roles == KeepDefined(OrderFor(HostsInGroup(c.hosts, play.group), c.roles), Names(c.roles))
    ensures ArePlays(c, groups + [play.group], plays + [play])
  {
    var more := plays + [play];
    forall i, j | 0 <= i < j < |more| ensures Precedes(groups + [play.group], more[i].group, more[j].group) {
      if j < |plays| {
        PrecedesLonger(groups, play.group, plays[i].group, plays[j].group);
      } else {
        assert plays[i] in plays;
        PrecedesLast(groups, play.group, plays[i].group);
      }
    }
    forall group | group in groups + [play.group] && NeedsPlay(c, group) ensures exists p <- more :: p.group == group {
      if group in groups {
        var p :| p in plays && p.group == group;
        assert p in more;
      } else {
        assert play in more;
      }
    }
  }

  /** One correct play for each inventory group that has something to apply, and no other, in the order
      the hosts first mention the groups. */
  method SitePlays(c: Configuration) returns (plays: seq<Play>)
    ensures ArePlays(c, Firsts(Mentions(c.hosts, GroupsOf())), plays)
    ensures forall play <- plays :: SomeGroup(c.hosts, play.group) && IsPlayFor(c, play)
    ensures forall group :: SomeGroup(c.hosts, group) && NeedsPlay(c, group) ==> exists play <- plays :: play.group == group
    ensures forall i, j :: 0 <= i < j < |plays| ==> plays[i].group != plays[j].group
  {
    var groups := Groups(c.hosts);
    plays := [];
    for k := 0 to |groups|
      invariant ArePlays(c, groups[..k], plays)
    {
      var hosts := HostsInGroup(c.hosts, groups[k]);
      var roles := OrderedRoles(hosts, c.roles);
      var applicable := KeepDefined(roles, Names(c.roles));
      FilteredIsPlay(c, groups[k], roles);
      assert groups[..k + 1] == groups[..k] + [groups[k]];
      if applicable == [] {
        SkippedPlay(c, groups[..k], plays, groups[k]);
        continue;
      }
      AddedPlay(c, groups[..k], plays, Play(groups[k], applicable));
      plays := plays + [Play(groups[k], applicable)];
    }
    assert groups[..|groups|] == groups;
    forall i, j | 0 <= i < j < |plays| ensures plays[i].group != plays[j].group {
      assert Precedes(groups, plays[i].group, plays[j].group);
    }
  }

  method Groups(hosts: seq<ConfigurationHost>) returns (groups: seq<string>)
    ensures groups == Firsts(Mentions(hosts, GroupsOf()))
    ensures Distinct(groups) && forall group :: group in groups <==> SomeGroup(hosts, group)
  {
    groups := [];
    for i := 0 to |hosts|
      invariant groups == Firsts(Mentions(hosts[..i], GroupsOf()))
    {
      MentionsStep(hosts, i, GroupsOf());
      groups := AddMissing(groups, hosts[i].groups, Mentions(hosts[..i], GroupsOf()));
    }
    assert hosts[..|hosts|] == hosts;
    FirstsDistinct(Mentions(hosts, GroupsOf()));
    forall group ensures group in groups <==> SomeGroup(hosts, group) {
      MentionedBy(hosts, GroupsOf(), group);
    }
  }
}
