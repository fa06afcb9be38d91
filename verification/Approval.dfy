/**
 The approval chain: a plan's checksum, a generated project's fingerprint, and the record that
 authorises one plan. The hash is a parameter; what is used of it is that it is injective and
 that its text holds no NUL.
 */
module Approval {
  import opened Wrappers
  import opened Framing
  import opened Sorting

  type Hash = string -> string

  const NUL: char := 0 as char

  predicate NulFree(s: string) {
    NUL !in s
  }

  /** What the proofs assume of SHA-256. */
  ghost predicate IsDigest(hash: Hash) {
    && (forall a, b :: hash(a) == hash(b) ==> a == b)
    && (forall a :: NulFree(hash(a)))
  }

  /** Fields separated by NUL. */
  function Framed(fields: seq<string>): string {
    Joined(fields, NUL)
  }

  predicate AllNulFree(fields: seq<string>) {
    AllFree(fields, NUL)
  }

  // ---------- The plan's checksum ----------

  datatype Action = Create | Update | Replace | Delete | NoOp | Read {
    function Text(): (s: string)
      ensures NulFree(s)
    {
      match this
      case Create => "create"
      case Update => "update"
      case Replace => "replace"
      case Delete => "delete"
      case NoOp => "no_op"
      case Read => "read"
    }
  }

  lemma ActionTextInjective(a: Action, b: Action)
    requires a.Text() == b.Text()
    ensures a == b
  {
    assert a.Text()[0] == b.Text()[0] && |a.Text()| == |b.Text()|;
  }

  datatype PlannedChange = PlannedChange(address: string, action: Action)

  datatype DeploymentPlan = DeploymentPlan(id: string, changes: seq<PlannedChange>, projectFingerprint: Option<string>)

  function FingerprintText(plan: DeploymentPlan): string {
    if plan.projectFingerprint.Some? then plan.projectFingerprint.value else ""
  }

  function ByAddress(changes: seq<PlannedChange>): (r: seq<PlannedChange>)
    ensures multiset(r) == multiset(changes)
  {
    SortBy(changes, (c: PlannedChange) => c.address)
  }

  function ChangeFields(changes: seq<PlannedChange>): seq<string> {
    if changes == [] then []
    else ChangeFields(changes[..|changes| - 1]) + [changes[|changes| - 1].address, changes[|changes| - 1].action.Text()]
  }

  /** The fields the checksum covers: the project fingerprint, then the changes by address. */
  function PlanFields(plan: DeploymentPlan): seq<string> {
    [FingerprintText(plan)] + ChangeFields(ByAddress(plan.changes))
  }

  method Checksum(plan: DeploymentPlan, hash: Hash) returns (r: string)
    ensures r == ChecksumOf(plan, hash)
  {
    var digest := FingerprintText(plan);
    var changes := ByAddress(plan.changes);
    for k := 0 to |changes|
      invariant digest == Framed([FingerprintText(plan)] + ChangeFields(changes[..k]))
    {
      assert changes[..k + 1][..k] == changes[..k];
      ghost var fields := [FingerprintText(plan)] + ChangeFields(changes[..k]);
      JoinedAppend(fields, changes[k].address, NUL);
      JoinedAppend(fields + [changes[k].address], changes[k].action.Text(), NUL);
      assert [FingerprintText(plan)] + ChangeFields(changes[..k + 1])
          == fields + [changes[k].address] + [changes[k].action.Text()];
      digest := digest + [NUL] + changes[k].address + [NUL] + changes[k].action.Text();
    }
    assert changes[..|changes|] == changes;
    r := hash(digest);
  }

  function ChecksumOf(plan: DeploymentPlan, hash: Hash): string {
    hash(Framed(PlanFields(plan)))
  }

  predicate IsSpelled(a: Action, word: string) {
    || (a == Create && word == "create") || (a == Update && word == "update") || (a == Replace && word == "replace")
    || (a == Delete && word == "delete") || (a == NoOp && word == "no_op") || (a == Read && word == "read")
  }

  /** What is hashed of a plan with one change: a missing fingerprint counts as the empty one. */
  lemma OneChangeHashed(plan: DeploymentPlan, c: PlannedChange, word: string)
    requires plan.changes == [c] && IsSpelled(c.action, word)
    ensures plan.projectFingerprint.Some? ==>
              Framed(PlanFields(plan)) == plan.projectFingerprint.value + "\0" + c.address + "\0" + word
    ensures plan.projectFingerprint.None? ==> Framed(PlanFields(plan)) == "" + "\0" + c.address + "\0" + word
  {
    var sorted := ByAddress([c]);
    assert |sorted| == |multiset(sorted)| && sorted[0] in multiset([c]);
    assert sorted == [c];
    assert ChangeFields([c][..0]) == [];
    ThreeFramed(FingerprintText(plan), c.address, word);
    assert PlanFields(plan) == [FingerprintText(plan), c.address, word];
  }

  lemma ThreeFramed(x: string, y: string, z: string)
    ensures Framed([x, y, z]) == x + "\0" + y + "\0" + z
  {
    assert [x, y, z][1..] == [y, z] && [y, z][1..] == [z];
    assert Joined([y, z], NUL) == y + [NUL] + z;
    assert Joined([x, y, z], NUL) == x + [NUL] + (y + [NUL] + z);
    assert [NUL] == "\0";
  }

  predicate PlanNulFree(plan: DeploymentPlan) {
    NulFree(FingerprintText(plan)) && forall c <- plan.changes :: NulFree(c.address)
  }

  lemma {:induction false} ChangeFieldsNulFree(changes: seq<PlannedChange>)
    requires forall c <- changes :: NulFree(c.address)
    ensures AllNulFree(ChangeFields(changes)) && |ChangeFields(changes)| == 2 * |changes|
  {
    if changes != [] {
      ChangeFieldsNulFree(changes[..|changes| - 1]);
      assert changes[|changes| - 1] in changes;
    }
  }

  lemma {:induction false} ChangeFieldsInjective(xs: seq<PlannedChange>, ys: seq<PlannedChange>)
    requires ChangeFields(xs) == ChangeFields(ys) && |xs| == |ys|
    ensures xs == ys
  {
    if xs != [] {
      var fx, fy := xs[..|xs| - 1], ys[..|ys| - 1];
      var x, y := xs[|xs| - 1], ys[|ys| - 1];
      var all := ChangeFields(xs);
      assert all[..|all| - 2] == ChangeFields(fx) && all[..|all| - 2] == ChangeFields(fy);
      assert all[|all| - 2] == x.address == y.address && all[|all| - 1] == x.action.Text() == y.action.Text();
      ActionTextInjective(x.action, y.action);
      ChangeFieldsInjective(fx, fy);
      assert xs == fx + [x] && ys == fy + [y];
    }
  }

  /** A checksum stands for exactly one fingerprint and one list of changes by address. */
  lemma ChecksumPinsPlan(a: DeploymentPlan, b: DeploymentPlan, hash: Hash)
    requires IsDigest(hash) && PlanNulFree(a) && PlanNulFree(b)
    ensures ChecksumOf(a, hash) == ChecksumOf(b, hash) <==>
            FingerprintText(a) == FingerprintText(b) && ByAddress(a.changes) == ByAddress(b.changes)
    ensures ChecksumOf(a, hash) == ChecksumOf(b, hash) ==> multiset(a.changes) == multiset(b.changes)
  {
    if ChecksumOf(a, hash) == ChecksumOf(b, hash) {
      SortedNulFree(a);
      SortedNulFree(b);
      var xs, ys := PlanFields(a), PlanFields(b);
      JoinedInjective(xs, ys, NUL);
      assert xs[1..] == ChangeFields(ByAddress(a.changes)) && ys[1..] == ChangeFields(ByAddress(b.changes));
      ChangeFieldsInjective(ByAddress(a.changes), ByAddress(b.changes));
    }
  }

  lemma SortedNulFree(plan: DeploymentPlan)
    requires PlanNulFree(plan)
    ensures AllNulFree(PlanFields(plan)) && |PlanFields(plan)| == 1 + 2 * |ByAddress(plan.changes)|
  {
    var changes := ByAddress(plan.changes);
    forall c | c in changes ensures NulFree(c.address) {
      assert c in multiset(plan.changes);
    }
    ChangeFieldsNulFree(changes);
  }

  /** A re-plan that lists the same changes in another order keeps its checksum. */
  lemma ChecksumIgnoresOrder(a: DeploymentPlan, b: DeploymentPlan, hash: Hash)
    requires FingerprintText(a) == FingerprintText(b) && multiset(a.changes) == multiset(b.changes)
    requires DistinctKeys(a.changes, (c: PlannedChange) => c.address)
    ensures ChecksumOf(a, hash) == ChecksumOf(b, hash)
  {
    SortIgnoresOrder(a.changes, b.changes, (c: PlannedChange) => c.address);
  }

  // ---------- Approval ----------

  datatype ApprovalRecord = ApprovalRecord(planId: string, planChecksum: string, approved: bool)

  /** A record made for a plan at the moment of decision. */
  function RecordFor(plan: DeploymentPlan, approved: bool, hash: Hash): ApprovalRecord {
    ApprovalRecord(plan.id, ChecksumOf(plan, hash), approved)
  }

  predicate Authorises(record: ApprovalRecord, plan: DeploymentPlan, hash: Hash) {
    record.approved && record.planId == plan.id && record.planChecksum == ChecksumOf(plan, hash)
  }

  /** An approval given for one plan authorises exactly the plans with its id, its project
      fingerprint and its changes. */
  lemma ApprovalPinsPlan(seen: DeploymentPlan, plan: DeploymentPlan, approved: bool, hash: Hash)
    requires IsDigest(hash) && PlanNulFree(seen) && PlanNulFree(plan)
    ensures Authorises(RecordFor(seen, approved, hash), plan, hash) <==>
            && approved && seen.id == plan.id
            && FingerprintText(seen) == FingerprintText(plan)
            && ByAddress(seen.changes) == ByAddress(plan.changes)
  {
    ChecksumPinsPlan(seen, plan, hash);
  }

  datatype DeploymentState = DeploymentState(plan: Option<DeploymentPlan>, approval: Option<ApprovalRecord>)

  predicate MayApply(state: DeploymentState, hash: Hash) {
    && state.plan.Some? && state.approval.Some?
    && Authorises(state.approval.value, state.plan.value, hash)
  }

  // ---------- The generated project ----------

  datatype GeneratedFile = GeneratedFile(path: string, content: string)

  predicate DistinctPaths(files: seq<GeneratedFile>) {
    DistinctKeys(files, (f: GeneratedFile) => f.path)
  }

  function Occurrences(files: seq<GeneratedFile>, path: string): nat {
    if files == [] then 0 else (if files[0].path == path then 1 else 0) + Occurrences(files[1..], path)
  }

  /** Construction fails when some path occurs more than once. */
  function Construct(files: seq<GeneratedFile>): (r: Option<seq<GeneratedFile>>) {
    if exists f <- files :: Occurrences(files, f.path) > 1 then None else Some(files)
  }

  lemma {:induction false} OccursWhen(files: seq<GeneratedFile>, path: string)
    ensures Occurrences(files, path) > 0 <==> exists f <- files :: f.path == path
  {
    if files != [] {
      OccursWhen(files[1..], path);
      assert forall f :: f in files <==> f == files[0] || f in files[1..];
    }
  }

  lemma {:induction false} DistinctMeansOnce(files: seq<GeneratedFile>)
    requires DistinctPaths(files)
    ensures forall f <- files :: Occurrences(files, f.path) <= 1
  {
    if files != [] {
      var rest := files[1..];
      DistinctMeansOnce(rest);
      OccursWhen(rest, files[0].path);
      forall f | f in rest ensures f.path != files[0].path {
        var j :| 0 <= j < |rest| && rest[j] == f;
        assert files[j + 1] == f;
      }
      assert forall f :: f in files <==> f == files[0] || f in rest;
    }
  }

  lemma {:induction false} OnceMeansDistinct(files: seq<GeneratedFile>)
    requires forall f <- files :: Occurrences(files, f.path) <= 1
    ensures DistinctPaths(files)
  {
    if files != [] {
      var rest := files[1..];
      assert forall f :: f in files <==> f == files[0] || f in rest;
      OnceMeansDistinct(rest);
      OccursWhen(rest, files[0].path);
      forall i, j | 0 <= i < j < |files| ensures files[i].path != files[j].path {
        if i == 0 {
          assert files[0] in files && files[j] == rest[j - 1];
        } else {
          assert rest[i - 1] == files[i] && rest[j - 1] == files[j];
        }
      }
    }
  }

  /** A project can be constructed exactly when its paths are distinct. */
  lemma ConstructIffDistinct(files: seq<GeneratedFile>)
    ensures Construct(files).Some? <==> DistinctPaths(files)
  {
    if DistinctPaths(files) {
      DistinctMeansOnce(files);
    } else if Construct(files).Some? {
      OnceMeansDistinct(files);
    }
  }

  function ByPath(files: seq<GeneratedFile>): (r: seq<GeneratedFile>)
    ensures multiset(r) == multiset(files)
  {
    SortBy(files, (f: GeneratedFile) => f.path)
  }

  function FileFields(files: seq<GeneratedFile>, hash: Hash): seq<string> {
    if files == [] then []
    else FileFields(files[..|files| - 1], hash) + [files[|files| - 1].path, hash(files[|files| - 1].content)]
  }

  /** The digest input: every field closed by a NUL. */
  function ProjectFields(files: seq<GeneratedFile>, hash: Hash): seq<string> {
    FileFields(ByPath(files), hash) + [""]
  }

  function FingerprintOf(files: seq<GeneratedFile>, hash: Hash): string {
    hash(Framed(ProjectFields(files, hash)))
  }

  method Fingerprint(files: seq<GeneratedFile>, hash: Hash) returns (r: string)
    ensures r == FingerprintOf(files, hash)
  {
    var digest := "";
    var sorted := ByPath(files);
    for k := 0 to |sorted|
      invariant digest == Framed(FileFields(sorted[..k], hash) + [""])
    {
      assert sorted[..k + 1][..k] == sorted[..k];
      ClosedFields(FileFields(sorted[..k], hash), sorted[k].path, hash(sorted[k].content));
      assert FileFields(sorted[..k + 1], hash)
          == FileFields(sorted[..k], hash) + [sorted[k].path, hash(sorted[k].content)];
      digest := digest + sorted[k].path + [NUL] + hash(sorted[k].content) + [NUL];
    }
    assert sorted[..|sorted|] == sorted;
    r := hash(digest);
  }

  lemma ClosedFields(fields: seq<string>, a: string, b: string)
    ensures Framed(fields + [a, b] + [""]) == Framed(fields + [""]) + a + [NUL] + b + [NUL]
  {
    JoinedAppend(fields + [a, b], "", NUL);
    assert fields + [a, b] == fields + [a] + [b];
    JoinedAppend(fields + [a], b, NUL);
    if fields != [] {
      JoinedAppend(fields, a, NUL);
      JoinedAppend(fields, "", NUL);
    } else {
      assert fields + [a] == [a] && fields + [""] == [""];
    }
  }

  lemma {:induction false} FileFieldsNulFree(files: seq<GeneratedFile>, hash: Hash)
    requires IsDigest(hash) && forall f <- files :: NulFree(f.path)
    ensures AllNulFree(FileFields(files, hash)) && |FileFields(files, hash)| == 2 * |files|
  {
    if files != [] {
      FileFieldsNulFree(files[..|files| - 1], hash);
      assert files[|files| - 1] in files;
    }
  }

  lemma {:induction false} FileFieldsInjective(xs: seq<GeneratedFile>, ys: seq<GeneratedFile>, hash: Hash)
    requires IsDigest(hash) && FileFields(xs, hash) == FileFields(ys, hash) && |xs| == |ys|
    ensures xs == ys
  {
    if xs != [] {
      var fx, fy := xs[..|xs| - 1], ys[..|ys| - 1];
      var x, y := xs[|xs| - 1], ys[|ys| - 1];
      var all := FileFields(xs, hash);
      assert all[..|all| - 2] == FileFields(fx, hash) && all[..|all| - 2] == FileFields(fy, hash);
      assert all[|all| - 2] == x.path == y.path && all[|all| - 1] == hash(x.content) == hash(y.content);
      FileFieldsInjective(fx, fy, hash);
      assert xs == fx + [x] && ys == fy + [y];
    }
  }

  /** A fingerprint stands for exactly one set of files: equal fingerprints mean the same paths
      with the same contents, and the order of generation does not matter. */
  lemma FingerprintPinsFiles(xs: seq<GeneratedFile>, ys: seq<GeneratedFile>, hash: Hash)
    requires IsDigest(hash) && DistinctPaths(xs)
    requires (forall f <- xs :: NulFree(f.path)) && (forall f <- ys :: NulFree(f.path))
    ensures FingerprintOf(xs, hash) == FingerprintOf(ys, hash) <==> multiset(xs) == multiset(ys)
  {
    if multiset(xs) == multiset(ys) {
      SortIgnoresOrder(xs, ys, (f: GeneratedFile) => f.path);
    }
    if FingerprintOf(xs, hash) == FingerprintOf(ys, hash) {
      var sx, sy := ByPath(xs), ByPath(ys);
      SortedPathsNulFree(xs);
      SortedPathsNulFree(ys);
      FileFieldsNulFree(sx, hash);
      FileFieldsNulFree(sy, hash);
      JoinedInjective(ProjectFields(xs, hash), ProjectFields(ys, hash), NUL);
      var all := ProjectFields(xs, hash);
      assert all[..|all| - 1] == FileFields(sx, hash) && all[..|all| - 1] == FileFields(sy, hash);
      FileFieldsInjective(sx, sy, hash);
    }
  }

  lemma SortedPathsNulFree(files: seq<GeneratedFile>)
    requires forall f <- files :: NulFree(f.path)
    ensures forall f <- ByPath(files) :: NulFree(f.path)
  {
    forall f | f in ByPath(files) ensures NulFree(f.path) {
      assert f in multiset(files);
    }
  }

  /** The whole chain: what may be applied under an approval is the code and the change list that
      were approved. */
  lemma ApprovalPinsCode(seen: DeploymentPlan, reviewed: seq<GeneratedFile>,
                         state: DeploymentState, generated: seq<GeneratedFile>, hash: Hash)
    requires IsDigest(hash) && MayApply(state, hash) && state.approval == Some(RecordFor(seen, true, hash))
    requires PlanNulFree(seen) && PlanNulFree(state.plan.value)
    requires seen.projectFingerprint == Some(FingerprintOf(reviewed, hash))
    requires state.plan.value.projectFingerprint == Some(FingerprintOf(generated, hash))
    requires DistinctPaths(reviewed)
    requires (forall f <- reviewed :: NulFree(f.path)) && (forall f <- generated :: NulFree(f.path))
    ensures state.plan.value.id == seen.id
    ensures multiset(state.plan.value.changes) == multiset(seen.changes)
    ensures multiset(generated) == multiset(reviewed)
  {
    ChecksumPinsPlan(seen, state.plan.value, hash);
    FingerprintPinsFiles(reviewed, generated, hash);
  }
}
