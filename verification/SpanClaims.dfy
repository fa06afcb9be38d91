/**
 Claiming spans of one text: a match is looked at only while its span is free, and what is made
 of it may report issues, claim the span, and accept a value found there.
 */
module SpanClaims {
  import opened Wrappers

  datatype RawSpan = RawSpan(start: nat, end: nat) {
    predicate Has(position: nat) {
      start <= position < end
    }
  }

  /** A match is never empty. */
  type Span = s: RawSpan | s.start < s.end witness RawSpan(0, 1)

  predicate Overlap(a: Span, b: Span) {
    a.start < b.end && b.start < a.end
  }

  /** Two spans overlap exactly when they have a position in common. */
  lemma OverlapMeans(a: Span, b: Span)
    ensures Overlap(a, b) <==> exists p: nat :: a.Has(p) && b.Has(p)
  {
    if Overlap(a, b) {
      var p := if a.start < b.start then b.start else a.start;
      assert a.Has(p) && b.Has(p);
    }
  }

  predicate IsFree(span: Span, consumed: seq<Span>) {
    !exists c <- consumed :: Overlap(span, c)
  }

  datatype IssueKind = InvalidIp | InvalidMask | InvalidPrefix | NetworkAddressAssigned | BroadcastAddressAssigned

  datatype Issue = Issue(kind: IssueKind, span: Span)
  datatype Found<A> = Found(value: A, span: Span)

  /** What one pass makes of one match. */
  datatype Outcome<A> = Outcome(issues: seq<IssueKind>, consumes: bool, accepted: Option<A>) {
    /** An accepted match claims its span, and a claimed span is accounted for. */
    predicate Valid() {
      && (accepted.Some? ==> consumes)
      && (consumes ==> accepted.Some? || issues != [])
    }
  }

  /** A match and its outcome; none when the pass leaves such a match alone. */
  datatype Match<A> = Match(span: Span, outcome: Option<Outcome<A>>)

  datatype Scan<A> = Scan(found: seq<Found<A>>, issues: seq<Issue>, consumed: seq<Span>) {
    function Apply(o: Outcome<A>, span: Span): Scan<A> {
      Scan(found + (if o.accepted.Some? then [Found(o.accepted.value, span)] else []),
           issues + IssuesAt(o.issues, span),
           consumed + if o.consumes then [span] else [])
    }

    predicate Covers(span: Span) {
      exists c <- consumed :: Overlap(span, c)
    }

    /** Some value or issue came from exactly this span. */
    predicate Explains(span: Span) {
      (exists i | 0 <= i < |found| :: found[i].span == span) || exists i | 0 <= i < |issues| :: issues[i].span == span
    }
  }

  function IssuesAt(kinds: seq<IssueKind>, span: Span): (r: seq<Issue>)
    ensures |r| == |kinds|
    ensures forall i | 0 <= i < |r| :: r[i] == Issue(kinds[i], span)
  {
    if kinds == [] then [] else [Issue(kinds[0], span)] + IssuesAt(kinds[1..], span)
  }

  function Spans<A>(found: seq<Found<A>>): (r: seq<Span>)
    ensures |r| == |found|
    ensures forall i | 0 <= i < |r| :: r[i] == found[i].span
  {
    if found == [] then [] else Spans(found[..|found| - 1]) + [found[|found| - 1].span]
  }

  predicate PairwiseApart(spans: seq<Span>) {
    forall i, j :: 0 <= i < j < |spans| ==> !Overlap(spans[i], spans[j])
  }

  /** Claimed spans are disjoint; every accepted value has claimed its own; every claimed span
      has given a value or an issue. */
  predicate Sound<A>(scan: Scan<A>) {
    && PairwiseApart(scan.consumed)
    && PairwiseApart(Spans(scan.found))
    && (forall s <- Spans(scan.found) :: s in scan.consumed)
    && (forall c <- scan.consumed :: scan.Explains(c))
  }

  /** Nothing found earlier is given up. */
  predicate Extends<A(==)>(after: Scan<A>, before: Scan<A>) {
    before.found <= after.found && before.issues <= after.issues && before.consumed <= after.consumed
  }

  lemma ExtendsKeeps<A>(after: Scan<A>, before: Scan<A>, span: Span)
    requires Extends(after, before)
    ensures before.Covers(span) ==> after.Covers(span)
    ensures before.Explains(span) ==> after.Explains(span)
  {
    if before.Covers(span) {
      var c :| c in before.consumed && Overlap(span, c);
      assert c in after.consumed;
    }
    if i :| 0 <= i < |before.found| && before.found[i].span == span {
      assert after.found[i].span == span;
    }
    if i :| 0 <= i < |before.issues| && before.issues[i].span == span {
      assert after.issues[i].span == span;
    }
  }

  lemma SpanApart(spans: seq<Span>, span: Span)
    requires PairwiseApart(spans) && IsFree(span, spans)
    ensures PairwiseApart(spans + [span])
  {
    var all := spans + [span];
    forall i, j | 0 <= i < j < |all| ensures !Overlap(all[i], all[j]) {
      assert all[i] in spans;
    }
  }

  lemma AppendedSpan<A>(found: seq<Found<A>>, value: A, span: Span)
    ensures Spans(found + [Found(value, span)]) == Spans(found) + [span]
  {
    var all := found + [Found(value, span)];
    assert all[..|all| - 1] == found;
  }

  lemma ApplyExplains<A>(scan: Scan<A>, o: Outcome<A>, span: Span)
    ensures o.issues != [] || o.accepted.Some? ==> scan.Apply(o, span).Explains(span)
    ensures o.consumes ==> scan.Apply(o, span).Covers(span)
  {
    var next := scan.Apply(o, span);
    if o.accepted.Some? {
      assert next.found[|scan.found|].span == span;
    }
    if o.issues != [] {
      assert next.issues[|scan.issues|].span == span;
    }
    if o.consumes {
      assert next.consumed[|scan.consumed|] == span && Overlap(span, span);
    }
  }

  lemma ApplyKeepsSound<A>(scan: Scan<A>, o: Outcome<A>, span: Span)
    requires Sound(scan) && IsFree(span, scan.consumed) && o.Valid()
    ensures Sound(scan.Apply(o, span)) && Extends(scan.Apply(o, span), scan)
  {
    var next := scan.Apply(o, span);
    ApplyExplains(scan, o, span);
    SpanApart(scan.consumed, span);
    if o.accepted.Some? {
      AppendedSpan(scan.found, o.accepted.value, span);
      SpanApart(Spans(scan.found), span);
    }
    forall c <- next.consumed ensures next.Explains(c) {
      ExtendsKeeps(next, scan, c);
    }
  }

  /** Every value found is the accepted value of a match with that span. */
  predicate IsAccepted<A(==)>(f: Found<A>, matches: seq<Match<A>>) {
    exists m <- matches :: m.span == f.span && m.outcome.Some? && m.outcome.value.accepted == Some(f.value)
  }

  predicate IsReported<A(==)>(i: Issue, matches: seq<Match<A>>) {
    exists m <- matches :: m.span == i.span && m.outcome.Some? && i.kind in m.outcome.value.issues
  }

  /** A match that would claim its span finds it claimed afterwards, by itself or by another;
      one that would report has done so, or was not free. */
  predicate IsSettled<A>(m: Match<A>, scan: Scan<A>) {
    m.outcome.Some? ==>
      && (m.outcome.value.consumes ==> scan.Covers(m.span))
      && (m.outcome.value.issues != [] ==> scan.Covers(m.span) || scan.Explains(m.span))
  }

  lemma SettledStays<A>(m: Match<A>, after: Scan<A>, before: Scan<A>)
    requires Extends(after, before) && IsSettled(m, before)
    ensures IsSettled(m, after)
  {
    ExtendsKeeps(after, before, m.span);
  }

  predicate AllValid<A>(matches: seq<Match<A>>) {
    forall i | 0 <= i < |matches| :: matches[i].outcome.Some? ==> matches[i].outcome.value.Valid()
  }

  predicate AllSettled<A>(matches: seq<Match<A>>, upTo: nat, scan: Scan<A>)
    requires upTo <= |matches|
  {
    forall i | 0 <= i < upTo :: IsSettled(matches[i], scan)
  }

  /** What a pass adds comes from its own matches. */
  predicate Additions<A(==)>(after: Scan<A>, before: Scan<A>, matches: seq<Match<A>>)
    requires Extends(after, before)
  {
    && (forall i | |before.found| <= i < |after.found| :: IsAccepted(after.found[i], matches))
    && (forall i | |before.issues| <= i < |after.issues| :: IsReported(after.issues[i], matches))
  }

  /** What the matches leave behind, taken one after the other: one whose span is still free is
      looked at. */
  function Sweep<A>(start: Scan<A>, matches: seq<Match<A>>): Scan<A> {
    if matches == [] then start
    else
      var before, m := Sweep(start, matches[..|matches| - 1]), matches[|matches| - 1];
      if m.outcome.Some? && !before.Covers(m.span) then before.Apply(m.outcome.value, m.span) else before
  }

  /** One pass over the matches of one form, strongest form first. */
  method Pass<A(==)>(start: Scan<A>, matches: seq<Match<A>>) returns (scan: Scan<A>)
    requires Sound(start) && AllValid(matches)
    ensures scan == Sweep(start, matches)
    ensures Sound(scan) && Extends(scan, start) && Additions(scan, start, matches)
    ensures AllSettled(matches, |matches|, scan)
  {
    scan := start;
    for k := 0 to |matches|
      invariant Sound(scan) && Extends(scan, start) && Additions(scan, start, matches)
      invariant AllSettled(matches, k, scan) && scan == Sweep(start, matches[..k])
    {
      var before, m := scan, matches[k];
      assert matches[..k + 1][..k] == matches[..k];
      if IsFree(m.span, scan.consumed) && m.outcome.Some? {
        scan := scan.Apply(m.outcome.value, m.span);
      }
      LookFacts(scan, before, start, matches, k);
    }
    assert matches[..|matches|] == matches;
  }

  lemma ApplyAdds<A>(before: Scan<A>, start: Scan<A>, matches: seq<Match<A>>, k: nat)
    requires k < |matches| && matches[k].outcome.Some?
    requires Extends(before, start) && Additions(before, start, matches)
    ensures
      var after := before.Apply(matches[k].outcome.value, matches[k].span);
      Extends(after, start) && Additions(after, start, matches)
  {
    var m := matches[k];
    var after := before.Apply(m.outcome.value, m.span);
    forall i | |before.found| <= i < |after.found| ensures IsAccepted(after.found[i], matches) {
      assert m in matches && m.outcome.value.accepted == Some(after.found[i].value);
    }
    forall i | |before.issues| <= i < |after.issues| ensures IsReported(after.issues[i], matches) {
      assert m in matches && after.issues[i].kind == m.outcome.value.issues[i - |before.issues|];
    }
  }

  lemma LookFacts<A>(scan: Scan<A>, before: Scan<A>, start: Scan<A>, matches: seq<Match<A>>, k: nat)
    requires k < |matches| && AllValid(matches)
    requires Sound(before) && Extends(before, start) && Additions(before, start, matches)
    requires AllSettled(matches, k, before)
    requires
      var m := matches[k];
      scan == if IsFree(m.span, before.consumed) && m.outcome.Some? then before.Apply(m.outcome.value, m.span) else before
    ensures Sound(scan) && Extends(scan, start) && Additions(scan, start, matches)
    ensures AllSettled(matches, k + 1, scan)
  {
    var m := matches[k];
    if IsFree(m.span, before.consumed) && m.outcome.Some? {
      ApplyKeepsSound(before, m.outcome.value, m.span);
      ApplyExplains(before, m.outcome.value, m.span);
      ApplyAdds(before, start, matches, k);
    }
    forall i | 0 <= i < k ensures IsSettled(matches[i], scan) {
      SettledStays(matches[i], scan, before);
    }
  }
}
