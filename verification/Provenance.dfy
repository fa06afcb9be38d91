/** Merging claims about one field: who wins, and what is kept of the losers. */
module Provenance {
  import opened Wrappers

  datatype Source = User | Yolo | Ocr | EdgeDetector | Llm | Rag | Derived | Default {
    function Rank(): nat {
      match this
      case User => 100
      case Derived => 70
      case Ocr => 60
      case Yolo => 60
      case EdgeDetector => 55
      case Llm => 50
      case Rag => 50
      case Default => 10
    }
  }

  datatype Evidence = Evidence(source: Source, confidence: real, detail: string) {
    /** A strictly higher rank of source, or the same rank and a higher confidence. */
    predicate Beats(other: Evidence) {
      source.Rank() > other.source.Rank() || (source.Rank() == other.source.Rank() && confidence > other.confidence)
    }
  }

  datatype Sourced<T> = Sourced(value: T, evidence: Evidence, superseded: seq<Evidence>) {
    /** Everything ever said about the field. */
    function Trail(): multiset<Evidence> {
      multiset{evidence} + multiset(superseded)
    }
  }

  function Merge<T>(current: Option<Sourced<T>>, candidate: Sourced<T>): (r: Sourced<T>)
    ensures r.Trail() == candidate.Trail() + if current.Some? then current.value.Trail() else multiset{}
  {
    if current.None? then candidate
    else
      var incumbent := current.value;
      if candidate.evidence.Beats(incumbent.evidence) then
        candidate.(superseded := candidate.superseded + [incumbent.evidence] + incumbent.superseded)
      else
        incumbent.(superseded := incumbent.superseded + [candidate.evidence] + candidate.superseded)
  }

  /** Claims merged in the order they arrive. */
  function MergeAll<T>(claims: seq<Sourced<T>>): Option<Sourced<T>> {
    if claims == [] then None
    else Some(Merge(MergeAll(claims[..|claims| - 1]), claims[|claims| - 1]))
  }

  function Trails<T>(claims: seq<Sourced<T>>): multiset<Evidence> {
    if claims == [] then multiset{} else Trails(claims[..|claims| - 1]) + claims[|claims| - 1].Trail()
  }

  /** The claim that stands: it beats every earlier one, and no later one beats it. */
  predicate Stands<T>(claims: seq<Sourced<T>>, k: nat) {
    && k < |claims|
    && (forall j | 0 <= j < k :: claims[k].evidence.Beats(claims[j].evidence))
    && (forall j | k <= j < |claims| :: !claims[j].evidence.Beats(claims[k].evidence))
  }

  lemma {:induction false} NothingLost<T>(claims: seq<Sourced<T>>)
    requires claims != []
    ensures MergeAll(claims).Some? && MergeAll(claims).value.Trail() == Trails(claims)
  {
    if |claims| > 1 {
      NothingLost(claims[..|claims| - 1]);
    }
  }

  lemma StandsStep<T>(front: seq<Sourced<T>>, last: Sourced<T>, k: nat)
    requires Stands(front, k)
    ensures Stands(front + [last], if last.evidence.Beats(front[k].evidence) then |front| else k)
  {
    if last.evidence.Beats(front[k].evidence) {
      forall j | 0 <= j < |front| ensures last.evidence.Beats(front[j].evidence) {
        if j < k {
          assert front[k].evidence.Beats(front[j].evidence);
        } else {
          BeatsAll(last.evidence, front[k].evidence, front[j].evidence);
        }
      }
    }
  }

  predicate Carries<T(==)>(merged: Option<Sourced<T>>, claim: Sourced<T>) {
    merged.Some? && merged.value.value == claim.value && merged.value.evidence == claim.evidence
  }

  lemma MergeStep<T>(front: seq<Sourced<T>>, last: Sourced<T>, k: nat)
    requires k < |front| && Carries(MergeAll(front), front[k])
    ensures Carries(MergeAll(front + [last]), if last.evidence.Beats(front[k].evidence) then last else front[k])
  {
    assert (front + [last])[..|front|] == front;
  }

  lemma {:induction false} Winner<T>(claims: seq<Sourced<T>>) returns (k: nat)
    requires claims != []
    ensures Stands(claims, k) && Carries(MergeAll(claims), claims[k])
  {
    var front, last := claims[..|claims| - 1], claims[|claims| - 1];
    if front == [] {
      k := 0;
    } else {
      var held := Winner(front);
      StandsStep(front, last, held);
      MergeStep(front, last, held);
      assert claims == front + [last];
      k := if last.evidence.Beats(front[held].evidence) then |front| else held;
    }
  }

  /** The first of the strongest claims wins, and no evidence is lost or repeated. */
  lemma FirstStrongestWins<T>(claims: seq<Sourced<T>>)
    requires claims != []
    ensures exists k | 0 <= k < |claims| :: Stands(claims, k) && Carries(MergeAll(claims), claims[k])
    ensures MergeAll(claims).Some? && MergeAll(claims).value.Trail() == Trails(claims)
  {
    NothingLost(claims);
    var k := Winner(claims);
  }

  lemma BeatsAll(a: Evidence, b: Evidence, c: Evidence)
    requires a.Beats(b) && !c.Beats(b)
    ensures a.Beats(c)
  {
  }

  lemma NeverBeaten<T>(claims: seq<Sourced<T>>, k: nat, j: nat)
    requires Stands(claims, k) && j < |claims|
    ensures !claims[j].evidence.Beats(claims[k].evidence)
  {
    if j < k {
      assert claims[k].evidence.Beats(claims[j].evidence);
    }
  }

  /** Replaying claims already merged changes neither the value nor its evidence; it does lengthen
      the trail, so the record as a whole is not the same. */
  lemma {:induction false} ReplayKeepsWinner<T>(claims: seq<Sourced<T>>, again: Sourced<T>)
    requires claims != [] && again in claims
    ensures var before, after := MergeAll(claims).value, Merge(MergeAll(claims), again);
            after.value == before.value && after.evidence == before.evidence && after != before
  {
    var k := Winner(claims);
    var j :| 0 <= j < |claims| && claims[j] == again;
    NeverBeaten(claims, k, j);
    var before := MergeAll(claims).value;
    assert |Merge(Some(before), again).superseded| > |before.superseded|;
  }

  // ---------- Which sources outrank which ----------

  /** The user before everything, then what was derived, what was read or seen in the picture, its
      edges, what a model said, and last the defaults. */
  predicate Outranks(a: Source, b: Source) {
    match a
    case User => b != User
    case Derived => b != User && b != Derived
    case Ocr => b == EdgeDetector || b == Llm || b == Rag || b == Default
    case Yolo => b == EdgeDetector || b == Llm || b == Rag || b == Default
    case EdgeDetector => b == Llm || b == Rag || b == Default
    case Llm => b == Default
    case Rag => b == Default
    case Default => false
  }

  /** Confidence decides only among sources of which neither outranks the other. */
  lemma BeatsExactly(a: Evidence, b: Evidence)
    ensures a.Beats(b) <==>
            Outranks(a.source, b.source) || (!Outranks(b.source, a.source) && a.confidence > b.confidence)
  {
  }

  /** Among any claims, one of the user's wins if there is one, and a default only if there is nothing
      else. */
  lemma UserWinsDefaultLoses<T>(claims: seq<Sourced<T>>)
    requires claims != []
    ensures MergeAll(claims).Some?
    ensures MergeAll(claims).value.evidence.source == User <==> exists c <- claims :: c.evidence.source == User
    ensures MergeAll(claims).value.evidence.source == Default <==> forall c <- claims :: c.evidence.source == Default
  {
    var k := Winner(claims);
    forall j | 0 <= j < |claims| ensures !claims[j].evidence.Beats(claims[k].evidence) {
      NeverBeaten(claims, k, j);
    }
    if c :| c in claims && c.evidence.source == User {
      BeatsExactly(c.evidence, claims[k].evidence);
    }
    if c :| c in claims && c.evidence.source != Default {
      BeatsExactly(c.evidence, claims[k].evidence);
    }
  }

  /** The trail of the winner comes first, then the loser and its trail. */
  lemma TrailInOrder<T>(winner: Sourced<T>, loser: Sourced<T>)
    ensures winner.evidence.Beats(loser.evidence) ==>
              Merge(Some(loser), winner) == Sourced(winner.value, winner.evidence,
                                                    winner.superseded + [loser.evidence] + loser.superseded)
    ensures !loser.evidence.Beats(winner.evidence) ==>
              Merge(Some(winner), loser) == Sourced(winner.value, winner.evidence,
                                                    winner.superseded + [loser.evidence] + loser.superseded)
  {
  }
}
