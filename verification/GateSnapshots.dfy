/** Which frozen snapshots are valid, told from the snapshot as it was given. */
module GateSnapshots {
  import opened Canonical
  import opened GateVerdict
  import opened Json
  import opened Models
  import opened Ordering
  import opened Sequences
  import opened Traces
  import opened TraceStructure

  /** A proposal revises another one exactly under a MODIFY decision. */
  predicate LineageSound(p: Proposal) {
    && (p.parentProposalId.Some? <==> p.sourceModifyDecisionId.Some?) && (p.parentProposalId.Some? <==> p.sourceModifyDecisionValue.Some?)
    && (p.sourceModifyDecisionValue.Some? ==> p.sourceModifyDecisionValue.value == Modify)
  }

  /** A decision and a receipt are there with all their columns or not at all, consequences only
      under an observed receipt, and a similarity or the reason why there is none. */
  predicate PrecedentComplete(x: PrecedentRef) {
    && (x.decision.Some? <==> x.decisionId.Some?) && (x.decision.Some? <==> x.decisionDigest.Some?)
    && (x.receiptId.Some? <==> x.receiptDigest.Some?) && (x.receiptId.Some? <==> x.receiptStatus.Some?)
    && (|x.consequenceRefs| > 0 ==> x.receiptStatus.Some? && x.receiptStatus.value == Observed)
    && (x.similarity.Some? <==> x.similarityErrorCode.None?)
  }

  /** The prior is a finished evaluation of the same proposal with the digest of its content. */
  ghost predicate PriorSound(p: PriorEvaluation, proposalId: string) {
    && p.proposalId == proposalId && p.result.traceDigest == OfResult(p.result.(traceDigest := Zero))
    && Structured(p.result.evaluationId, p.result.trace, Some(p.result.becauseStepId), false)
    && (forall g | g in p.result.gaps :: g.resolutionRule.Text() != "")
    && forall q | q in p.result.changedFactRules :: FactPattern(q.Text())
  }

  function NamesOf(ds: seq<DependencyRef>): set<string> { set d | d in ds :: d.dependencyId }

  ghost predicate SnapshotSound(s: EvaluationSnapshot) {
    && LineageSound(s.proposal) && s.evaluationId != "" && s.snapshotId != ""
    && (s.prior.Some? ==> PriorSound(s.prior.value, s.proposal.proposalId))
    && (forall x | x in s.precedents :: PrecedentComplete(x))
    && |NamesOf(s.dependencies)| == |s.dependencies|
    && s.snapshotDigest == OfSnapshot(CanonicalSnapshot(s).(snapshotDigest := Zero))
  }

  // ----- distinct names

  lemma NamesSnoc(front: seq<DependencyRef>, d: DependencyRef)
    ensures NamesOf(front + [d]) == NamesOf(front) + {d.dependencyId}
  {
    var ds := front + [d];
    assert forall e :: e in ds <==> e in front || e == d;
  }

  lemma DistinctSnoc(front: seq<DependencyRef>, d: DependencyRef)
    ensures DistinctDependencies(front + [d]) <==> DistinctDependencies(front) && forall e | e in front :: e.dependencyId != d.dependencyId
  {
    var ds := front + [d];
    if DistinctDependencies(ds) {
      forall i, j | 0 <= i < j < |front| ensures front[i].dependencyId != front[j].dependencyId { assert ds[i] == front[i] && ds[j] == front[j]; }
      forall e | e in front ensures e.dependencyId != d.dependencyId {
        var i :| 0 <= i < |front| && front[i] == e;
        assert ds[i] == e && ds[|front|] == d;
      }
    }
  }

  lemma {:induction false} DistinctByCount(ds: seq<DependencyRef>)
    ensures |NamesOf(ds)| <= |ds| && (DistinctDependencies(ds) <==> |NamesOf(ds)| == |ds|)
  {
    hide DistinctDependencies;
    if ds == [] {
      NoNames();
    } else {
      var front, d := ds[..|ds| - 1], ds[|ds| - 1];
      assert ds == front + [d];
      DistinctByCount(front);
      NamesSnoc(front, d);
      DistinctSnoc(front, d);
      assert d.dependencyId in NamesOf(front) <==> exists e :: e in front && e.dependencyId == d.dependencyId;
    }
  }

  lemma NoNames()
    ensures DistinctDependencies([]) && NamesOf([]) == {}
  {}

  lemma DependenciesSound(s: EvaluationSnapshot)
    ensures DistinctDependencies(CanonicalSnapshot(s).dependencies) <==> |NamesOf(s.dependencies)| == |s.dependencies|
  {
    hide Sort, DistinctDependencies, CanonicalRules;
    var sorted := Sort(DependencyKey, s.dependencies);
    DistinctByCount(sorted);
    SortMembers(DependencyKey, s.dependencies);
    SortFacts(DependencyKey, s.dependencies);
    assert |multiset(sorted)| == |sorted| && |multiset(s.dependencies)| == |s.dependencies|;
    assert NamesOf(sorted) == NamesOf(s.dependencies);
  }

  // ----- the other parts

  lemma LineageExactly(p: Proposal)
    ensures LineageAccepted(CanonicalProposal(p)) <==> LineageSound(p)
  {
    hide Sort;
  }

  lemma PrecedentExactly(x: PrecedentRef)
    ensures PrecedentAccepted(CanonicalPrecedent(x)) <==> PrecedentComplete(x)
  {
    hide Sort;
    CanonicalPrecedentKeeps(x);
  }

  lemma PrecedentsSound(s: EvaluationSnapshot)
    ensures (forall x | x in CanonicalSnapshot(s).precedents :: PrecedentAccepted(x)) <==> forall x | x in s.precedents :: PrecedentComplete(x)
  {
    hide CanonicalSnapshot, CanonicalPrecedent, PrecedentAccepted, PrecedentComplete;
    CanonicalPrecedentMembers(s);
    var c := CanonicalSnapshot(s);
    forall x ensures PrecedentAccepted(CanonicalPrecedent(x)) <==> PrecedentComplete(x) { PrecedentExactly(x); }
    if forall x | x in c.precedents :: PrecedentAccepted(x) {
      forall x | x in s.precedents ensures PrecedentComplete(x) { assert CanonicalPrecedent(x) in c.precedents; }
    }
  }

  lemma PriorExactly(p: PriorEvaluation, proposalId: string)
    ensures PriorAccepted(p, proposalId) <==> PriorSound(p, proposalId)
  {
    hide TraceAccepted, Structured, GapsAccepted, FactRule, FactPattern;
    AcceptedExactly(p.result.evaluationId, p.result.trace, Some(p.result.becauseStepId), false);
    GapsExactly(p.result.gaps);
    forall q ensures FactRule(q) <==> FactPattern(q.Text()) { FactRuleExactly(q); }
  }

  lemma CanonicalFields(s: EvaluationSnapshot)
    ensures var c := CanonicalSnapshot(s);
      && c.proposal == CanonicalProposal(s.proposal) && c.proposal.proposalId == s.proposal.proposalId && c.prior == s.prior
      && c.evaluationId == s.evaluationId && c.snapshotId == s.snapshotId && c.snapshotDigest == s.snapshotDigest
  {
    hide Sort, CanonicalRules;
  }

  /** The snapshot validator accepts the canonical form of a snapshot exactly when lineage,
      identities, prior, precedents, dependency names and digest of the snapshot are sound. */
  lemma SnapshotExactly(s: EvaluationSnapshot)
    ensures SnapshotAccepted(CanonicalSnapshot(s)) <==> SnapshotSound(s)
  {
    hide CanonicalSnapshot, LineageAccepted, LineageSound, PriorAccepted, PriorSound, PrecedentAccepted, PrecedentComplete, DistinctDependencies,
      CanonicalProposal;
    CanonicalFields(s);
    LineageExactly(s.proposal);
    if s.prior.Some? { PriorExactly(s.prior.value, s.proposal.proposalId); }
    PrecedentsSound(s);
    DependenciesSound(s);
  }
}
