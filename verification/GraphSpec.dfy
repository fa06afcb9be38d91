/**
 The workflow declared as data: stages, unconditional edges and labelled branches, with the
 queries the pipeline invariants are asserted through.
 */
module GraphSpec {
  import opened Wrappers
  import opened Reachability

  datatype Stage =
    | DetectInputMode
    | PreprocessImage | DetectComponents | ExtractText | DetectConnections | SpatialAssociation
    | BuildTopologyFromImage
    | PromptLlm | BuildTopologyFromPrompt
    | AnalyzeCompleteness | AwaitClarification | EnrichNetwork | ValidateNetwork
    | FinaliseNetworkArchitecture
    | RagTranslate | ValidateCloudArchitecture
    | GenerateTerraform | ValidateTerraform | GenerateAnsible | ValidateAnsible
    | DeploymentReview | TerraformPlan | AwaitApproval | TerraformApply | CollectOutputs
    | GenerateInventory | RunConfiguration
    | Complete | Rejected | Failed
    | End

  datatype Label =
    | Image | Prompt | Fail | Clarify | Enrich | Translate | Invalid | Generate
    | Ansible | Skip | Review | Apply | Reject | Configure | Finish

  datatype Branch = Branch(on: Label, target: Stage)

  datatype GraphSpec = GraphSpec(edges: seq<(Stage, Stage)>, conditional: map<Stage, seq<Branch>>)

  // ---------- Successors and predecessors ----------

  function Direct(edges: seq<(Stage, Stage)>, name: Stage): (r: seq<Stage>)
    ensures forall b :: b in r <==> (name, b) in edges
  {
    if edges == [] then []
    else
      var rest := Direct(edges[1..], name);
      assert forall e :: e in edges <==> e == edges[0] || e in edges[1..];
      if edges[0].0 == name then [edges[0].1] + rest else rest
  }

  function Targets(branches: seq<Branch>): (r: seq<Stage>)
    ensures forall b :: b in r <==> exists x <- branches :: x.target == b
  {
    if branches == [] then []
    else
      var rest := Targets(branches[1..]);
      assert forall x :: x in branches <==> x == branches[0] || x in branches[1..];
      [branches[0].target] + rest
  }

  function BranchesOf(conditional: map<Stage, seq<Branch>>, name: Stage): seq<Branch> {
    if name in conditional then conditional[name] else []
  }

  /** First occurrences only, in order. */
  function Dedup(xs: seq<Stage>): (r: seq<Stage>)
    ensures forall x :: x in r <==> x in xs
    ensures forall i, j :: 0 <= i < j < |r| ==> r[i] != r[j]
  {
    if xs == [] then []
    else
      var front, last := Dedup(xs[..|xs| - 1]), xs[|xs| - 1];
      assert forall x :: x in xs <==> x in xs[..|xs| - 1] || x == last;
      if last in front then front else front + [last]
  }

  function Successors(spec: GraphSpec, name: Stage): seq<Stage> {
    Dedup(Direct(spec.edges, name) + Targets(BranchesOf(spec.conditional, name)))
  }

  function Predecessors(spec: GraphSpec, name: Stage): set<Stage> {
    (set e <- spec.edges | e.1 == name :: e.0)
    + (set source <- spec.conditional | name in Targets(spec.conditional[source]))
  }

  lemma SuccessorsMeans(spec: GraphSpec, a: Stage, b: Stage)
    ensures b in Successors(spec, a) <==> (a, b) in spec.edges || b in Targets(BranchesOf(spec.conditional, a))
  {
    var direct, branched := Direct(spec.edges, a), Targets(BranchesOf(spec.conditional, a));
    assert b in direct + branched <==> b in direct || b in branched;
  }

  /** The two queries are each other's converse. */
  lemma PredecessorsConverse(spec: GraphSpec, a: Stage, b: Stage)
    ensures a in Predecessors(spec, b) <==> b in Successors(spec, a)
  {
    SuccessorsMeans(spec, a, b);
    if (a, b) in spec.edges {
      assert (a, b).1 == b;
    }
  }

  // ---------- Reachability ----------

  const STAGES: set<Stage> := set s: Stage | true

  function GraphOf(spec: GraphSpec): (g: Graph<Stage>)
    ensures forall a, b :: Step(g, a, b) <==> b in Successors(spec, a)
  {
    map a: Stage | a in STAGES :: set b | b in Successors(spec, a)
  }

  /** Is `target` reachable from `source`? A stack of stages to look at and a set of stages seen. */
  method ReachesFrom(spec: GraphSpec, source: Stage, target: Stage) returns (r: bool)
    ensures r <==> Reaches(GraphOf(spec), source, target)
  {
    var seen: set<Stage> := {};
    var frontier := [source];
    ghost var g := GraphOf(spec);
    ReachesSelf(g, source);
    while frontier != []
      invariant target !in seen && (source in seen || source in frontier)
      invariant forall s <- seen :: Reaches(g, source, s)
      invariant forall s <- frontier :: Reaches(g, source, s)
      invariant forall u, w :: u in seen && Step(g, u, w) ==> w in seen || w in frontier
      decreases STAGES - seen, |frontier|
    {
      var current := frontier[|frontier| - 1];
      frontier := frontier[..|frontier| - 1];
      if current == target {
        return true;
      }
      if current in seen {
        continue;
      }
      seen := seen + {current};
      var next := Successors(spec, current);
      forall w | w in next ensures Reaches(g, source, w) {
        StepReaches(g, current, w);
        ReachesTransitive(g, source, current, w);
      }
      frontier := frontier + next;
    }
    if Reaches(g, source, target) {
      ClosedUnderReaches(g, seen, source, target);
    }
    return false;
  }

  // ---------- The workflow itself ----------

  const EDGES: seq<(Stage, Stage)> := [
    (PreprocessImage, DetectComponents),
    (DetectComponents, ExtractText),
    (ExtractText, DetectConnections),
    (DetectConnections, SpatialAssociation),
    (SpatialAssociation, BuildTopologyFromImage),
    (BuildTopologyFromImage, AnalyzeCompleteness),
    (PromptLlm, BuildTopologyFromPrompt),
    (BuildTopologyFromPrompt, AnalyzeCompleteness),
    (AwaitClarification, EnrichNetwork),
    (EnrichNetwork, ValidateNetwork),
    (FinaliseNetworkArchitecture, RagTranslate),
    (RagTranslate, ValidateCloudArchitecture),
    (GenerateTerraform, ValidateTerraform),
    (GenerateAnsible, ValidateAnsible),
    (DeploymentReview, TerraformPlan),
    (TerraformPlan, AwaitApproval),
    (TerraformApply, CollectOutputs),
    (CollectOutputs, GenerateInventory),
    (GenerateInventory, RunConfiguration),
    (RunConfiguration, Complete),
    (Complete, End),
    (Rejected, End),
    (Failed, End)
  ]

  const CONDITIONAL: map<Stage, seq<Branch>> := map[
    DetectInputMode := [Branch(Image, PreprocessImage), Branch(Prompt, PromptLlm), Branch(Fail, Failed)],
    AnalyzeCompleteness := [Branch(Clarify, AwaitClarification), Branch(Enrich, EnrichNetwork), Branch(Fail, Failed)],
    ValidateNetwork :=
      [Branch(Translate, FinaliseNetworkArchitecture), Branch(Clarify, AwaitClarification), Branch(Invalid, Failed)],
    ValidateCloudArchitecture := [Branch(Generate, GenerateTerraform), Branch(Invalid, Failed)],
    ValidateTerraform := [Branch(Ansible, GenerateAnsible), Branch(Skip, DeploymentReview)],
    ValidateAnsible := [Branch(Review, DeploymentReview), Branch(Invalid, Failed)],
    AwaitApproval := [Branch(Apply, TerraformApply), Branch(Reject, Rejected)],
    CollectOutputs := [Branch(Configure, GenerateInventory), Branch(Finish, Complete), Branch(Fail, Failed)]
  ]

  const GRAPH_SPEC := GraphSpec(EDGES, CONDITIONAL)
}
