/**
 Whole runs of the workflow: the routing functions decide every branch, node bodies are
 arbitrary state updates, and a run is any sequence of stages the graph allows.
 */
module Workflow {
  import opened Wrappers
  import opened GraphSpec
  import opened Reachability

  // ---------- Routing ----------

  datatype InputMode = ImageMode | PromptMode | RevisionMode | OtherMode

  datatype Question = Question(id: Option<string>, required: bool)

  /** `deployment_approved`: only the boolean `True` itself counts. */
  datatype Flag = ExactlyTrue | TruthyButNotTrue | Falsy

  /** The parts of the workflow state a router looks at; lists are present when non-empty. */
  datatype State = State(
    inputMode: InputMode,
    hasErrors: bool,
    questions: seq<Question>, answeredIds: set<Option<string>>,
    networkErrors: bool, needs: seq<string>,
    cloudErrors: bool, provisioned: set<string>,
    hasHosts: bool, hasRoles: bool,
    terraformErrors: bool, ansibleErrors: bool, hasTerraformProject: bool,
    deploymentApproved: Flag, decision: Option<string>)

  const INFRASTRUCTURE_KEYS: set<string> := {
    "networks", "subnets", "compute", "databases", "load_balancers", "gateways", "route_tables", "security_groups"
  }

  function RouteAfterInputMode(s: State): Label {
    match s.inputMode
    case ImageMode => Image
    case PromptMode => Prompt
    case RevisionMode => Prompt
    case OtherMode => Fail
  }

  predicate Outstanding(s: State, q: Question) {
    q.required && q.id !in s.answeredIds
  }

  function RouteAfterCompleteness(s: State): Label {
    if s.hasErrors then Fail
    else if exists q <- s.questions :: Outstanding(s, q) then Clarify
    else Enrich
  }

  function RouteAfterNetworkValidation(s: State): Label {
    if s.networkErrors then Invalid
    else if exists need <- s.needs :: need == "REQUIRED" || need == "ERROR" then Clarify
    else Translate
  }

  predicate HasInfrastructure(s: State) {
    exists key <- INFRASTRUCTURE_KEYS :: key in s.provisioned
  }

  function RouteAfterCloudValidation(s: State): Label {
    if s.cloudErrors || !HasInfrastructure(s) then Invalid else Generate
  }

  function RouteConfigurationStage(s: State): Label {
    if s.hasHosts && s.hasRoles then Ansible else Skip
  }

  function RouteAfterGeneration(s: State): Label {
    if s.terraformErrors || s.ansibleErrors || !s.hasTerraformProject then Invalid else Review
  }

  function RouteAfterApproval(s: State): Label {
    if !s.deploymentApproved.ExactlyTrue? then Reject
    else if s.decision != Some("approved") then Reject
    else Apply
  }

  function RouteAfterApply(s: State): Label {
    if s.hasErrors then Fail
    else if RouteConfigurationStage(s) == Ansible then Configure
    else Finish
  }

  /** The router of each branching stage. */
  function Route(stage: Stage, s: State): Option<Label> {
    match stage
    case DetectInputMode => Some(RouteAfterInputMode(s))
    case AnalyzeCompleteness => Some(RouteAfterCompleteness(s))
    case ValidateNetwork => Some(RouteAfterNetworkValidation(s))
    case ValidateCloudArchitecture => Some(RouteAfterCloudValidation(s))
    case ValidateTerraform => Some(RouteConfigurationStage(s))
    case ValidateAnsible => Some(RouteAfterGeneration(s))
    case AwaitApproval => Some(RouteAfterApproval(s))
    case CollectOutputs => Some(RouteAfterApply(s))
    case _ => None
  }

  // ---------- Runs ----------

  /** A stage with the state its body left behind, which is what its router sees. */
  datatype Visit = Visit(stage: Stage, state: State)

  /** The unconditional edge out of a stage; no stage has two. */
  function DirectNext(stage: Stage): Option<Stage> {
    match stage
    case PreprocessImage => Some(DetectComponents)
    case DetectComponents => Some(ExtractText)
    case ExtractText => Some(DetectConnections)
    case DetectConnections => Some(SpatialAssociation)
    case SpatialAssociation => Some(BuildTopologyFromImage)
    case BuildTopologyFromImage => Some(AnalyzeCompleteness)
    case PromptLlm => Some(BuildTopologyFromPrompt)
    case BuildTopologyFromPrompt => Some(AnalyzeCompleteness)
    case AwaitClarification => Some(EnrichNetwork)
    case EnrichNetwork => Some(ValidateNetwork)
    case FinaliseNetworkArchitecture => Some(RagTranslate)
    case RagTranslate => Some(ValidateCloudArchitecture)
    case GenerateTerraform => Some(ValidateTerraform)
    case GenerateAnsible => Some(ValidateAnsible)
    case DeploymentReview => Some(TerraformPlan)
    case TerraformPlan => Some(AwaitApproval)
    case TerraformApply => Some(CollectOutputs)
    case CollectOutputs => Some(GenerateInventory)
    case GenerateInventory => Some(RunConfiguration)
    case RunConfiguration => Some(Complete)
    case Complete => Some(End)
    case Rejected => Some(End)
    case Failed => Some(End)
    case _ => None
  }

  /** Where a branching stage's router sends the run. */
  function Routed(v: Visit): Option<Stage> {
    match Route(v.stage, v.state)
    case None => None
    case Some(on) => TargetOf(v.stage, on)
  }

  function TargetOf(stage: Stage, on: Label): Option<Stage> {
    match (stage, on)
    case (DetectInputMode, Image) => Some(PreprocessImage)
    case (DetectInputMode, Prompt) => Some(PromptLlm)
    case (DetectInputMode, Fail) => Some(Failed)
    case (AnalyzeCompleteness, Clarify) => Some(AwaitClarification)
    case (AnalyzeCompleteness, Enrich) => Some(EnrichNetwork)
    case (AnalyzeCompleteness, Fail) => Some(Failed)
    case (ValidateNetwork, Translate) => Some(FinaliseNetworkArchitecture)
    case (ValidateNetwork, Clarify) => Some(AwaitClarification)
    case (ValidateNetwork, Invalid) => Some(Failed)
    case (ValidateCloudArchitecture, Generate) => Some(GenerateTerraform)
    case (ValidateCloudArchitecture, Invalid) => Some(Failed)
    case (ValidateTerraform, Ansible) => Some(GenerateAnsible)
    case (ValidateTerraform, Skip) => Some(DeploymentReview)
    case (ValidateAnsible, Review) => Some(DeploymentReview)
    case (ValidateAnsible, Invalid) => Some(Failed)
    case (AwaitApproval, Apply) => Some(TerraformApply)
    case (AwaitApproval, Reject) => Some(Rejected)
    case (CollectOutputs, Configure) => Some(GenerateInventory)
    case (CollectOutputs, Finish) => Some(Complete)
    case (CollectOutputs, Fail) => Some(Failed)
    case _ => None
  }

  /** An unconditional edge, or the branch the router picks. A stage may have both. */
  predicate Follows(v: Visit, next: Stage) {
    DirectNext(v.stage) == Some(next) || Routed(v) == Some(next)
  }

  /** A run from the entry point; node bodies may leave any state behind. */
  ghost predicate IsRun(run: seq<Visit>) {
    && run != [] && run[0].stage == DetectInputMode
    && forall i :: 0 <= i < |run| - 1 ==> Follows(run[i], run[i + 1].stage)
  }

  // ---------- The relation is the declared graph ----------

  /** The same step, read off the declared edges and branches. */
  predicate Declared(v: Visit, next: Stage) {
    || (v.stage, next) in EDGES
    || exists b <- BranchesOf(CONDITIONAL, v.stage) :: Route(v.stage, v.state) == Some(b.on) && b.target == next
  }

  lemma EdgeIsDirectNext(i: nat)
    requires i < |EDGES|
    ensures DirectNext(EDGES[i].0) == Some(EDGES[i].1)
  {
    assert |EDGES| == 23;
    if i < 8 {
    } else if i < 16 {
    } else {
    }
  }

  function EdgeIndex(a: Stage): nat {
    match a
    case PreprocessImage => 0
    case DetectComponents => 1
    case ExtractText => 2
    case DetectConnections => 3
    case SpatialAssociation => 4
    case BuildTopologyFromImage => 5
    case PromptLlm => 6
    case BuildTopologyFromPrompt => 7
    case AwaitClarification => 8
    case EnrichNetwork => 9
    case FinaliseNetworkArchitecture => 10
    case RagTranslate => 11
    case GenerateTerraform => 12
    case GenerateAnsible => 13
    case DeploymentReview => 14
    case TerraformPlan => 15
    case TerraformApply => 16
    case CollectOutputs => 17
    case GenerateInventory => 18
    case RunConfiguration => 19
    case Complete => 20
    case Rejected => 21
    case _ => 22
  }

  lemma IndexedEdge(a: Stage)
    requires DirectNext(a).Some?
    ensures EDGES[EdgeIndex(a)] == (a, DirectNext(a).value)
  {
    assert |EDGES| == 23;
    if EdgeIndex(a) < 8 {
    } else if EdgeIndex(a) < 16 {
    } else {
    }
  }

  lemma DirectNextIsEdge(a: Stage, b: Stage)
    ensures (a, b) in EDGES <==> DirectNext(a) == Some(b)
  {
    if DirectNext(a) == Some(b) {
      IndexedEdge(a);
    }
    if (a, b) in EDGES {
      var i :| 0 <= i < |EDGES| && EDGES[i] == (a, b);
      EdgeIsDirectNext(i);
    }
  }

  lemma ThreeWayBranches(stage: Stage, b: Branch)
    requires stage.DetectInputMode? || stage.AnalyzeCompleteness? || stage.ValidateNetwork? || stage.CollectOutputs?
    ensures b in BranchesOf(CONDITIONAL, stage) <==> TargetOf(stage, b.on) == Some(b.target)
  {
    var bs := BranchesOf(CONDITIONAL, stage);
    assert b in bs <==> b == bs[0] || b == bs[1] || b == bs[2];
  }

  lemma TwoWayBranches(stage: Stage, b: Branch)
    requires stage.ValidateCloudArchitecture? || stage.ValidateTerraform? || stage.ValidateAnsible? || stage.AwaitApproval?
    ensures b in BranchesOf(CONDITIONAL, stage) <==> TargetOf(stage, b.on) == Some(b.target)
  {
    var bs := BranchesOf(CONDITIONAL, stage);
    assert b in bs <==> b == bs[0] || b == bs[1];
  }

  lemma NoBranches(stage: Stage, s: State)
    ensures stage !in CONDITIONAL ==> Route(stage, s).None? && forall on :: TargetOf(stage, on).None?
    ensures stage in CONDITIONAL <==>
            || stage.DetectInputMode? || stage.AnalyzeCompleteness? || stage.ValidateNetwork? || stage.CollectOutputs?
            || stage.ValidateCloudArchitecture? || stage.ValidateTerraform? || stage.ValidateAnsible?
            || stage.AwaitApproval?
  {
  }

  lemma BranchIsTarget(stage: Stage, b: Branch, s: State)
    ensures b in BranchesOf(CONDITIONAL, stage) <==> TargetOf(stage, b.on) == Some(b.target)
  {
    NoBranches(stage, s);
    match stage
    case DetectInputMode => ThreeWayBranches(stage, b);
    case AnalyzeCompleteness => ThreeWayBranches(stage, b);
    case ValidateNetwork => ThreeWayBranches(stage, b);
    case CollectOutputs => ThreeWayBranches(stage, b);
    case ValidateCloudArchitecture => TwoWayBranches(stage, b);
    case ValidateTerraform => TwoWayBranches(stage, b);
    case ValidateAnsible => TwoWayBranches(stage, b);
    case AwaitApproval => TwoWayBranches(stage, b);
    case _ =>
  }

  lemma BranchMeans(v: Visit, next: Stage)
    ensures (exists b <- BranchesOf(CONDITIONAL, v.stage) :: Route(v.stage, v.state) == Some(b.on) && b.target == next)
            <==> Routed(v) == Some(next)
  {
    var route := Route(v.stage, v.state);
    if route.Some? {
      BranchIsTarget(v.stage, Branch(route.value, next), v.state);
    }
  }

  lemma FollowsIsDeclared(v: Visit, next: Stage)
    ensures Follows(v, next) <==> Declared(v, next)
  {
    DirectNextIsEdge(v.stage, next);
    BranchMeans(v, next);
  }

  // ---------- When each step is taken ----------

  predicate Provisioned(s: State) {
    || "networks" in s.provisioned || "subnets" in s.provisioned || "compute" in s.provisioned
    || "databases" in s.provisioned || "load_balancers" in s.provisioned || "gateways" in s.provisioned
    || "route_tables" in s.provisioned || "security_groups" in s.provisioned
  }

  /** What sends a run from one stage to another, in terms of the state alone. */
  predicate Leads(from: Stage, s: State, to: Stage) {
    match (from, to)
    case (DetectInputMode, PreprocessImage) => s.inputMode == ImageMode
    case (DetectInputMode, PromptLlm) => s.inputMode == PromptMode || s.inputMode == RevisionMode
    case (DetectInputMode, Failed) => s.inputMode == OtherMode
    case (AnalyzeCompleteness, Failed) => s.hasErrors
    case (AnalyzeCompleteness, AwaitClarification) =>
      !s.hasErrors && exists q <- s.questions :: q.required && q.id !in s.answeredIds
    case (AnalyzeCompleteness, EnrichNetwork) =>
      !s.hasErrors && forall q <- s.questions :: q.required ==> q.id in s.answeredIds
    case (ValidateNetwork, Failed) => s.networkErrors
    case (ValidateNetwork, AwaitClarification) => !s.networkErrors && ("REQUIRED" in s.needs || "ERROR" in s.needs)
    case (ValidateNetwork, FinaliseNetworkArchitecture) =>
      !s.networkErrors && "REQUIRED" !in s.needs && "ERROR" !in s.needs
    case (ValidateCloudArchitecture, GenerateTerraform) => !s.cloudErrors && Provisioned(s)
    case (ValidateCloudArchitecture, Failed) => s.cloudErrors || !Provisioned(s)
    case (ValidateTerraform, GenerateAnsible) => s.hasHosts && s.hasRoles
    case (ValidateTerraform, DeploymentReview) => !(s.hasHosts && s.hasRoles)
    case (ValidateAnsible, DeploymentReview) => !s.terraformErrors && !s.ansibleErrors && s.hasTerraformProject
    case (ValidateAnsible, Failed) => s.terraformErrors || s.ansibleErrors || !s.hasTerraformProject
    case (AwaitApproval, TerraformApply) => s.deploymentApproved == ExactlyTrue && s.decision == Some("approved")
    case (AwaitApproval, Rejected) => s.deploymentApproved != ExactlyTrue || s.decision != Some("approved")
    case (CollectOutputs, GenerateInventory) => true
    case (CollectOutputs, Complete) => !s.hasErrors && !(s.hasHosts && s.hasRoles)
    case (CollectOutputs, Failed) => s.hasErrors
    case (PreprocessImage, DetectComponents) => true
    case (DetectComponents, ExtractText) => true
    case (ExtractText, DetectConnections) => true
    case (DetectConnections, SpatialAssociation) => true
    case (SpatialAssociation, BuildTopologyFromImage) => true
    case (BuildTopologyFromImage, AnalyzeCompleteness) => true
    case (PromptLlm, BuildTopologyFromPrompt) => true
    case (BuildTopologyFromPrompt, AnalyzeCompleteness) => true
    case (AwaitClarification, EnrichNetwork) => true
    case (EnrichNetwork, ValidateNetwork) => true
    case (FinaliseNetworkArchitecture, RagTranslate) => true
    case (RagTranslate, ValidateCloudArchitecture) => true
    case (GenerateTerraform, ValidateTerraform) => true
    case (GenerateAnsible, ValidateAnsible) => true
    case (DeploymentReview, TerraformPlan) => true
    case (TerraformPlan, AwaitApproval) => true
    case (TerraformApply, CollectOutputs) => true
    case (GenerateInventory, RunConfiguration) => true
    case (RunConfiguration, Complete) => true
    case (Complete, End) => true
    case (Rejected, End) => true
    case (Failed, End) => true
    case _ => false
  }

  lemma ProvisionedMeans(s: State)
    ensures Provisioned(s) <==> HasInfrastructure(s)
  {
    if Provisioned(s) {
      assert {"networks", "subnets", "compute", "databases", "load_balancers", "gateways", "route_tables",
              "security_groups"} == INFRASTRUCTURE_KEYS;
    }
  }

  lemma GapsMean(s: State)
    ensures "REQUIRED" in s.needs || "ERROR" in s.needs
            <==> exists need <- s.needs :: need == "REQUIRED" || need == "ERROR"
  {
  }

  lemma InputLeads(s: State, next: Stage)
    ensures Follows(Visit(DetectInputMode, s), next) <==> Leads(DetectInputMode, s, next)
  {
  }

  lemma CompletenessLeads(s: State, next: Stage)
    ensures Follows(Visit(AnalyzeCompleteness, s), next) <==> Leads(AnalyzeCompleteness, s, next)
  {
    assert (exists q <- s.questions :: q.required && q.id !in s.answeredIds)
           <==> exists q <- s.questions :: Outstanding(s, q);
  }

  lemma NetworkLeads(s: State, next: Stage)
    ensures Follows(Visit(ValidateNetwork, s), next) <==> Leads(ValidateNetwork, s, next)
  {
    GapsMean(s);
  }

  lemma CloudLeads(s: State, next: Stage)
    ensures Follows(Visit(ValidateCloudArchitecture, s), next) <==> Leads(ValidateCloudArchitecture, s, next)
  {
    ProvisionedMeans(s);
  }

  lemma TerraformLeads(s: State, next: Stage)
    ensures Follows(Visit(ValidateTerraform, s), next) <==> Leads(ValidateTerraform, s, next)
  {
  }

  lemma AnsibleLeads(s: State, next: Stage)
    ensures Follows(Visit(ValidateAnsible, s), next) <==> Leads(ValidateAnsible, s, next)
  {
  }

  lemma ApprovalLeads(s: State, next: Stage)
    ensures Follows(Visit(AwaitApproval, s), next) <==> Leads(AwaitApproval, s, next)
  {
  }

  lemma OutputsLead(s: State, next: Stage)
    ensures Follows(Visit(CollectOutputs, s), next) <==> Leads(CollectOutputs, s, next)
  {
  }

  predicate Branches(stage: Stage) {
    || stage.DetectInputMode? || stage.AnalyzeCompleteness? || stage.ValidateNetwork? || stage.ValidateTerraform?
    || stage.ValidateCloudArchitecture? || stage.ValidateAnsible? || stage.AwaitApproval? || stage.CollectOutputs?
  }

  lemma DirectLeads(stage: Stage, s: State, next: Stage)
    requires !Branches(stage)
    ensures Follows(Visit(stage, s), next) <==> Leads(stage, s, next)
  {
  }

  /** A run steps from one stage to another exactly when the state calls for it. */
  lemma StepsExactly(stage: Stage, s: State, next: Stage)
    ensures Follows(Visit(stage, s), next) <==> Leads(stage, s, next)
  {
    match stage
    case DetectInputMode => InputLeads(s, next);
    case AnalyzeCompleteness => CompletenessLeads(s, next);
    case ValidateNetwork => NetworkLeads(s, next);
    case ValidateCloudArchitecture => CloudLeads(s, next);
    case ValidateTerraform => TerraformLeads(s, next);
    case ValidateAnsible => AnsibleLeads(s, next);
    case AwaitApproval => ApprovalLeads(s, next);
    case CollectOutputs => OutputsLead(s, next);
    case _ => DirectLeads(stage, s, next);
  }

  // ---------- One loop, bounded runs ----------

  /** The longest way from a stage to the end that never goes back to the user. */
  function StepsLeft(stage: Stage): nat {
    match stage
    case End => 0
    case Complete => 1
    case Rejected => 1
    case Failed => 1
    case RunConfiguration => 2
    case GenerateInventory => 3
    case CollectOutputs => 4
    case TerraformApply => 5
    case AwaitApproval => 6
    case TerraformPlan => 7
    case DeploymentReview => 8
    case ValidateAnsible => 9
    case GenerateAnsible => 10
    case ValidateTerraform => 11
    case GenerateTerraform => 12
    case ValidateCloudArchitecture => 13
    case RagTranslate => 14
    case FinaliseNetworkArchitecture => 15
    case ValidateNetwork => 16
    case EnrichNetwork => 17
    case AwaitClarification => 18
    case AnalyzeCompleteness => 19
    case BuildTopologyFromImage => 20
    case BuildTopologyFromPrompt => 20
    case PromptLlm => 21
    case SpatialAssociation => 21
    case DetectConnections => 22
    case ExtractText => 23
    case DetectComponents => 24
    case PreprocessImage => 25
    case DetectInputMode => 26
  }

  /** Network validation sends the user back to clarification. */
  predicate IsReturn(a: Stage, b: Stage) {
    a == ValidateNetwork && b == AwaitClarification
  }

  lemma DirectStepDescends(a: Stage, b: Stage)
    requires DirectNext(a) == Some(b)
    ensures StepsLeft(b) < StepsLeft(a) && !IsReturn(a, b)
  {
  }

  lemma RoutedStepDescends(v: Visit, next: Stage)
    requires Routed(v) == Some(next)
    ensures if IsReturn(v.stage, next) then StepsLeft(next) == StepsLeft(v.stage) + 2
            else StepsLeft(next) < StepsLeft(v.stage)
  {
  }

  lemma StepDescends(v: Visit, next: Stage)
    requires Follows(v, next)
    ensures if IsReturn(v.stage, next) then StepsLeft(next) == StepsLeft(v.stage) + 2
            else StepsLeft(next) < StepsLeft(v.stage)
  {
    if DirectNext(v.stage) == Some(next) {
      DirectStepDescends(v.stage, next);
    } else {
      RoutedStepDescends(v, next);
    }
  }

  /** The visit before position `n`. */
  lemma StepBack(run: seq<Visit>, n: nat)
    requires IsRun(run) && n < |run| && (n > 0 || run[n].stage != DetectInputMode)
    ensures n > 0 && Follows(run[n - 1], run[n].stage)
  {
    if n > 0 {
      assert Follows(run[n - 1], run[n - 1 + 1].stage);
    }
  }

  lemma PrefixIsRun(run: seq<Visit>, n: nat)
    requires IsRun(run) && 0 < n <= |run|
    ensures IsRun(run[..n])
  {
    var front := run[..n];
    forall i | 0 <= i < |front| - 1 ensures Follows(front[i], front[i + 1].stage) {
      assert Follows(run[i], run[i + 1].stage);
    }
  }

  function Returns(run: seq<Visit>): nat {
    if |run| < 2 then 0
    else
      Returns(run[..|run| - 1])
      + if IsReturn(run[|run| - 2].stage, run[|run| - 1].stage) then 1 else 0
  }

  /** A run that returned to clarification `k` times has taken at most `26 + 3k` steps: the
      return to clarification is the workflow's only cycle. */
  lemma {:induction false} RunLengthBound(run: seq<Visit>)
    requires IsRun(run)
    ensures |run| - 1 + StepsLeft(run[|run| - 1].stage) <= StepsLeft(DetectInputMode) + 3 * Returns(run)
  {
    if |run| > 1 {
      var front := run[..|run| - 1];
      PrefixIsRun(run, |run| - 1);
      RunLengthBound(front);
      StepBack(run, |run| - 1);
      StepDescends(run[|run| - 2], run[|run| - 1].stage);
    }
  }

  /** No stage but the end is a dead end, whatever its body leaves behind; with the bound, a run
      that is always continued reaches the end unless it returns to the user for ever. */
  lemma NeverStuck(v: Visit)
    ensures v.stage != End <==> exists next :: Follows(v, next)
  {
    if v.stage != End {
      RouterIsTotal(v);
      var next := if DirectNext(v.stage).Some? then DirectNext(v.stage).value else Routed(v).value;
      assert Follows(v, next);
    }
  }

  lemma RouterIsTotal(v: Visit)
    ensures v.stage != End ==> DirectNext(v.stage).Some? || Routed(v).Some?
  {
  }

  lemma StepBelowGate(v: Visit, next: Stage)
    requires Follows(v, next) && StepsLeft(v.stage) < StepsLeft(ValidateNetwork)
    ensures StepsLeft(next) < StepsLeft(v.stage)
  {
    StepDescends(v, next);
  }

  function Ranks(run: seq<Visit>): (r: seq<nat>)
    ensures |r| == |run| && forall k :: 0 <= k < |run| ==> r[k] == StepsLeft(run[k].stage)
  {
    seq(|run|, k requires 0 <= k < |run| => StepsLeft(run[k].stage))
  }

  lemma {:induction false} FallsOn(ranks: seq<nat>, gate: nat, i: nat, j: nat)
    requires i < j < |ranks| && ranks[i] < gate
    requires forall k :: 0 <= k < |ranks| - 1 && ranks[k] < gate ==> ranks[k + 1] < ranks[k]
    ensures ranks[j] < ranks[i]
    decreases j
  {
    if i < j - 1 {
      FallsOn(ranks, gate, i, j - 1);
    }
    assert ranks[j - 1] < gate ==> ranks[j - 1 + 1] < ranks[j - 1];
  }

  /** Once network validation is passed there is no way back up. */
  lemma PastTheGate(run: seq<Visit>, i: nat, j: nat)
    requires IsRun(run) && i < j < |run| && StepsLeft(run[i].stage) < StepsLeft(ValidateNetwork)
    ensures StepsLeft(run[j].stage) < StepsLeft(run[i].stage)
  {
    var ranks := Ranks(run);
    forall k | 0 <= k < |ranks| - 1 && ranks[k] < StepsLeft(ValidateNetwork) ensures ranks[k + 1] < ranks[k] {
      DescendsBelowGate(run, k + 1);
    }
    FallsOn(ranks, StepsLeft(ValidateNetwork), i, j);
  }

  lemma DescendsBelowGate(run: seq<Visit>, n: nat)
    requires IsRun(run) && 0 < n < |run| && StepsLeft(run[n - 1].stage) < StepsLeft(ValidateNetwork)
    ensures StepsLeft(run[n].stage) < StepsLeft(run[n - 1].stage)
  {
    StepBack(run, n);
    StepBelowGate(run[n - 1], run[n].stage);
  }

  /** Translation, generation, plan and apply: every stage after network validation is entered at
      most once in a run. */
  lemma EnteredAtMostOnce(run: seq<Visit>, i: nat, j: nat)
    requires IsRun(run) && i < j < |run| && StepsLeft(run[i].stage) < StepsLeft(ValidateNetwork)
    ensures run[i].stage != run[j].stage
  {
    PastTheGate(run, i, j);
  }

  // ---------- The gates before an apply ----------

  predicate NetworkPassed(s: State) {
    !s.networkErrors && forall need <- s.needs :: need != "REQUIRED" && need != "ERROR"
  }

  predicate CloudPassed(s: State) {
    !s.cloudErrors && HasInfrastructure(s)
  }

  predicate GenerationPassed(s: State) {
    !s.terraformErrors && !s.ansibleErrors && s.hasTerraformProject
  }

  predicate Approved(s: State) {
    s.deploymentApproved.ExactlyTrue? && s.decision == Some("approved")
  }

  predicate HasConfiguration(s: State) {
    s.hasHosts && s.hasRoles
  }

  /** Which visits can come immediately before a stage on the way to an apply. */
  lemma OnlyWayInto(v: Visit, next: Stage)
    requires Follows(v, next)
    ensures next == TerraformApply ==> v.stage == AwaitApproval && Approved(v.state)
    ensures next == AwaitApproval ==> v.stage == TerraformPlan
    ensures next == TerraformPlan ==> v.stage == DeploymentReview
    ensures next == DeploymentReview ==>
              || (v.stage == ValidateTerraform && !HasConfiguration(v.state))
              || (v.stage == ValidateAnsible && GenerationPassed(v.state))
    ensures next == ValidateAnsible ==> v.stage == GenerateAnsible
    ensures next == GenerateAnsible ==> v.stage == ValidateTerraform && HasConfiguration(v.state)
    ensures next == ValidateTerraform ==> v.stage == GenerateTerraform
    ensures next == GenerateTerraform ==> v.stage == ValidateCloudArchitecture && CloudPassed(v.state)
    ensures next == ValidateCloudArchitecture ==> v.stage == RagTranslate
    ensures next == RagTranslate ==> v.stage == FinaliseNetworkArchitecture
    ensures next == FinaliseNetworkArchitecture ==> v.stage == ValidateNetwork && NetworkPassed(v.state)
    ensures next != DetectInputMode
  {
    if DirectNext(v.stage) == Some(next) {
      OnlyEdgeInto(v.stage, next);
    } else {
      OnlyBranchInto(v, next);
    }
  }

  lemma OnlyEdgeInto(a: Stage, b: Stage)
    requires DirectNext(a) == Some(b)
    ensures b == AwaitApproval ==> a == TerraformPlan
    ensures b == TerraformPlan ==> a == DeploymentReview
    ensures b == ValidateAnsible ==> a == GenerateAnsible
    ensures b == ValidateTerraform ==> a == GenerateTerraform
    ensures b == ValidateCloudArchitecture ==> a == RagTranslate
    ensures b == RagTranslate ==> a == FinaliseNetworkArchitecture
    ensures !(b in {TerraformApply, DeploymentReview, GenerateAnsible, GenerateTerraform, FinaliseNetworkArchitecture, DetectInputMode})
  {
  }

  lemma OnlyBranchInto(v: Visit, next: Stage)
    requires Routed(v) == Some(next)
    ensures next == TerraformApply ==> v.stage == AwaitApproval && Approved(v.state)
    ensures next == DeploymentReview ==>
              || (v.stage == ValidateTerraform && !HasConfiguration(v.state))
              || (v.stage == ValidateAnsible && GenerationPassed(v.state))
    ensures next == GenerateAnsible ==> v.stage == ValidateTerraform && HasConfiguration(v.state)
    ensures next == GenerateTerraform ==> v.stage == ValidateCloudArchitecture && CloudPassed(v.state)
    ensures next == FinaliseNetworkArchitecture ==> v.stage == ValidateNetwork && NetworkPassed(v.state)
    ensures !(next in {AwaitApproval, TerraformPlan, ValidateAnsible, ValidateTerraform, ValidateCloudArchitecture, RagTranslate, DetectInputMode})
  {
  }

  /** From the translated architecture back to the gate into the translation. */
  lemma GeneratedAfterGates(run: seq<Visit>, n: nat)
    requires IsRun(run) && n < |run| && run[n].stage == ValidateTerraform
    ensures n >= 5
    ensures run[n - 5].stage == ValidateNetwork && NetworkPassed(run[n - 5].state)
    ensures run[n - 4].stage == FinaliseNetworkArchitecture && run[n - 3].stage == RagTranslate
    ensures run[n - 2].stage == ValidateCloudArchitecture && CloudPassed(run[n - 2].state)
    ensures run[n - 1].stage == GenerateTerraform
  {
    StepBack(run, n);
    OnlyWayInto(run[n - 1], run[n].stage);
    StepBack(run, n - 1);
    OnlyWayInto(run[n - 2], run[n - 1].stage);
    StepBack(run, n - 2);
    OnlyWayInto(run[n - 3], run[n - 2].stage);
    StepBack(run, n - 3);
    OnlyWayInto(run[n - 4], run[n - 3].stage);
    StepBack(run, n - 4);
    OnlyWayInto(run[n - 5], run[n - 4].stage);
  }

  /** The stage that led into the deployment review, and whether the generation gate was asked. */
  lemma ReviewedAfterGeneration(run: seq<Visit>, n: nat)
    requires IsRun(run) && n < |run| && run[n].stage == DeploymentReview
    ensures n >= 1
    ensures || (run[n - 1].stage == ValidateTerraform && !HasConfiguration(run[n - 1].state))
            || (n >= 3 && run[n - 1].stage == ValidateAnsible && GenerationPassed(run[n - 1].state)
                && run[n - 2].stage == GenerateAnsible
                && run[n - 3].stage == ValidateTerraform && HasConfiguration(run[n - 3].state))
  {
    StepBack(run, n);
    OnlyWayInto(run[n - 1], run[n].stage);
    if run[n - 1].stage == ValidateAnsible {
      StepBack(run, n - 1);
      OnlyWayInto(run[n - 2], run[n - 1].stage);
      StepBack(run, n - 2);
      OnlyWayInto(run[n - 3], run[n - 2].stage);
    }
  }

  /** Every run that enters the apply has passed, in this order: network validation without errors
      or blocking gaps, the translation, cloud validation without errors and with something to
      build, the Terraform generator, the review, the plan, and an approval that is exactly `True`
      with a recorded decision. `t` is the position of Terraform validation. */
  lemma ApplyIsGated(run: seq<Visit>, n: nat) returns (t: nat)
    requires IsRun(run) && n < |run| && run[n].stage == TerraformApply
    ensures 5 <= t && (t == n - 4 || t == n - 6)
    ensures run[t - 5].stage == ValidateNetwork && NetworkPassed(run[t - 5].state)
    ensures run[t - 3].stage == RagTranslate
    ensures run[t - 2].stage == ValidateCloudArchitecture && CloudPassed(run[t - 2].state)
    ensures run[t - 1].stage == GenerateTerraform && run[t].stage == ValidateTerraform
    ensures run[n - 3].stage == DeploymentReview && run[n - 2].stage == TerraformPlan
    ensures run[n - 1].stage == AwaitApproval && Approved(run[n - 1].state)
    ensures if HasConfiguration(run[t].state)
            then t == n - 6 && run[n - 4].stage == ValidateAnsible && GenerationPassed(run[n - 4].state)
            else t == n - 4
  {
    StepBack(run, n);
    OnlyWayInto(run[n - 1], run[n].stage);
    StepBack(run, n - 1);
    OnlyWayInto(run[n - 2], run[n - 1].stage);
    StepBack(run, n - 2);
    OnlyWayInto(run[n - 3], run[n - 2].stage);
    ReviewedAfterGeneration(run, n - 3);
    t := if run[n - 4].stage == ValidateTerraform then n - 4 else n - 6;
    GeneratedAfterGates(run, t);
  }

  // ---------- What the gates do not cover ----------

  const UNVALIDATED: State := State(
    PromptMode, false, [], {}, false, [], false, {"networks"}, false, false, true, true, false, ExactlyTrue,
    Some("approved"))

  function Through(stages: seq<Stage>, s: State): (run: seq<Visit>)
    ensures |run| == |stages| && forall i :: 0 <= i < |run| ==> run[i] == Visit(stages[i], s)
  {
    seq(|stages|, i requires 0 <= i < |stages| => Visit(stages[i], s))
  }

  const DESIGN: seq<Stage> := [
    DetectInputMode, PromptLlm, BuildTopologyFromPrompt, AnalyzeCompleteness, EnrichNetwork, ValidateNetwork,
    FinaliseNetworkArchitecture, RagTranslate, ValidateCloudArchitecture, GenerateTerraform, ValidateTerraform]

  const DEPLOYMENT: seq<Stage> := [
    ValidateTerraform, DeploymentReview, TerraformPlan, AwaitApproval, TerraformApply, CollectOutputs, GenerateInventory]

  lemma DesignFollows(i: nat)
    requires i < |DESIGN| - 1
    ensures Follows(Visit(DESIGN[i], UNVALIDATED), DESIGN[i + 1])
  {
    assert HasInfrastructure(UNVALIDATED) by {
      assert "networks" in INFRASTRUCTURE_KEYS;
    }
  }

  lemma DeploymentFollows(i: nat)
    requires i < |DEPLOYMENT| - 1
    ensures Follows(Visit(DEPLOYMENT[i], UNVALIDATED), DEPLOYMENT[i + 1])
  {
  }

  /** Without configuration the generation gate is never asked, so Terraform code that failed its
      validation can be planned, approved and applied. And after the apply the inventory stage can
      follow all the same, although there is nothing to configure. */
  lemma ApplyWithoutValidation() returns (run: seq<Visit>)
    ensures IsRun(run) && |run| == 17 && run[10].stage == ValidateTerraform && run[12].stage == TerraformPlan
    ensures run[14].stage == TerraformApply && run[15].stage == CollectOutputs && run[16].stage == GenerateInventory
    ensures forall v <- run :: v.state.terraformErrors && !v.state.hasTerraformProject && !HasConfiguration(v.state)
  {
    var stages := DESIGN + DEPLOYMENT[1..];
    run := Through(stages, UNVALIDATED);
    forall i | 0 <= i < |run| - 1 ensures Follows(run[i], run[i + 1].stage) {
      if i < 10 {
        DesignFollows(i);
      } else {
        DeploymentFollows(i - 10);
      }
    }
  }

  // ---------- The declared graph and the runs agree ----------

  /** A state in which the router of a branching stage picks the label. */
  function StateChoosing(stage: Stage, on: Label): State {
    var quiet := State(PromptMode, false, [], {}, false, [], false, {"networks"}, true, true, false, false, true,
                       ExactlyTrue, Some("approved"));
    match (stage, on)
    case (DetectInputMode, Image) => quiet.(inputMode := ImageMode)
    case (DetectInputMode, Fail) => quiet.(inputMode := OtherMode)
    case (AnalyzeCompleteness, Clarify) => quiet.(questions := [Question(None, true)])
    case (_, Fail) => quiet.(hasErrors := true)
    case (_, Clarify) => quiet.(needs := ["REQUIRED"])
    case (ValidateNetwork, Invalid) => quiet.(networkErrors := true)
    case (ValidateCloudArchitecture, Invalid) => quiet.(cloudErrors := true)
    case (ValidateAnsible, Invalid) => quiet.(terraformErrors := true)
    case (_, Skip) => quiet.(hasHosts := false)
    case (_, Finish) => quiet.(hasHosts := false)
    case (_, Reject) => quiet.(deploymentApproved := TruthyButNotTrue)
    case _ => quiet
  }

  lemma EarlyBranchIsTaken(stage: Stage, on: Label)
    requires stage.DetectInputMode? || stage.AnalyzeCompleteness? || stage.ValidateNetwork?
    requires TargetOf(stage, on).Some?
    ensures Route(stage, StateChoosing(stage, on)) == Some(on)
  {
    var s := StateChoosing(stage, on);
    if on == Clarify && stage == AnalyzeCompleteness {
      assert s.questions[0] in s.questions && Outstanding(s, s.questions[0]);
    } else if on == Clarify {
      assert s.needs[0] in s.needs;
    }
  }

  lemma LateBranchIsTaken(stage: Stage, on: Label)
    requires !(stage.DetectInputMode? || stage.AnalyzeCompleteness? || stage.ValidateNetwork?)
    requires TargetOf(stage, on).Some?
    ensures Route(stage, StateChoosing(stage, on)) == Some(on)
  {
    assert "networks" in INFRASTRUCTURE_KEYS;
  }

  lemma EveryBranchIsTaken(stage: Stage, on: Label)
    requires TargetOf(stage, on).Some?
    ensures Route(stage, StateChoosing(stage, on)) == Some(on)
  {
    if stage.DetectInputMode? || stage.AnalyzeCompleteness? || stage.ValidateNetwork? {
      EarlyBranchIsTaken(stage, on);
    } else {
      LateBranchIsTaken(stage, on);
    }
  }

  lemma TakenIsInGraph(a: Stage, s: State, b: Stage)
    requires Follows(Visit(a, s), b)
    ensures b in Successors(GRAPH_SPEC, a)
  {
    SuccessorsMeans(GRAPH_SPEC, a, b);
    FollowsIsDeclared(Visit(a, s), b);
  }

  lemma BranchTargetIsTaken(a: Stage, b: Stage)
    requires b in Targets(BranchesOf(CONDITIONAL, a))
    ensures exists s :: Follows(Visit(a, s), b)
  {
    var branch :| branch in BranchesOf(CONDITIONAL, a) && branch.target == b;
    BranchIsTarget(a, branch, UNVALIDATED);
    EveryBranchIsTaken(a, branch.on);
    assert Follows(Visit(a, StateChoosing(a, branch.on)), b);
  }

  /** `b` is a successor of `a` in the declared graph exactly when some state sends a run from `a`
      to `b`: no edge is dead and no router leaves the graph. */
  lemma GraphIsExact(a: Stage, b: Stage)
    ensures b in Successors(GRAPH_SPEC, a) <==> exists s :: Follows(Visit(a, s), b)
  {
    if s :| Follows(Visit(a, s), b) {
      TakenIsInGraph(a, s, b);
    }
    if b in Successors(GRAPH_SPEC, a) {
      SuccessorsMeans(GRAPH_SPEC, a, b);
      if (a, b) in EDGES {
        DirectNextIsEdge(a, b);
        assert Follows(Visit(a, UNVALIDATED), b);
      } else {
        BranchTargetIsTaken(a, b);
      }
    }
  }

  /** Below the network gate the declared graph only leads down, so generated code never flows
      back into the translation. */
  lemma {:induction false} WalkDescends(p: seq<Stage>, a: Stage, b: Stage)
    requires IsWalk(GraphOf(GRAPH_SPEC), p, a, b) && StepsLeft(a) < StepsLeft(ValidateNetwork)
    ensures a == b || StepsLeft(b) < StepsLeft(a)
    decreases |p|
  {
    if |p| > 1 {
      FirstStepDescends(p, a, b);
      WalkTail(p, a, b);
      WalkDescends(p[1..], p[1], b);
    }
  }

  lemma FirstStepDescends(p: seq<Stage>, a: Stage, b: Stage)
    requires IsWalk(GraphOf(GRAPH_SPEC), p, a, b) && StepsLeft(a) < StepsLeft(ValidateNetwork) && |p| > 1
    ensures StepsLeft(p[1]) < StepsLeft(a)
  {
    assert Step(GraphOf(GRAPH_SPEC), p[0], p[0 + 1]);
    GraphIsExact(a, p[1]);
    var s :| Follows(Visit(a, s), p[1]);
    StepBelowGate(Visit(a, s), p[1]);
  }

  lemma WalkTail(p: seq<Stage>, a: Stage, b: Stage)
    requires IsWalk(GraphOf(GRAPH_SPEC), p, a, b) && |p| > 1
    ensures IsWalk(GraphOf(GRAPH_SPEC), p[1..], p[1], b)
  {
    var rest := p[1..];
    forall i | 0 <= i < |rest| - 1 ensures Step(GraphOf(GRAPH_SPEC), rest[i], rest[i + 1]) {
      assert Step(GraphOf(GRAPH_SPEC), p[i + 1], p[i + 1 + 1]);
    }
  }

  lemma NothingFlowsBack(a: Stage, b: Stage)
    requires StepsLeft(a) < StepsLeft(b) <= StepsLeft(ValidateNetwork)
    ensures !Reaches(GraphOf(GRAPH_SPEC), a, b)
  {
    if p :| IsWalk(GraphOf(GRAPH_SPEC), p, a, b) {
      WalkDescends(p, a, b);
    }
  }
}
