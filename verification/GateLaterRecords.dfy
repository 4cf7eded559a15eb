/** What the steps of the rules F07 to F10 record, told from the snapshot as it was given. */
module GateLaterRecords {
  import opened Canonical
  import opened Gate
  import opened GateEvidence
  import opened GateFields
  import opened GateRecords
  import opened GateRules
  import opened GateSteps
  import opened GateVerdict
  import opened Json
  import opened Models
  import opened Ordering
  import opened Sequences

  // ----- F07

  /** The row names the requirement, whether it is met, and the last reference of its kind. */
  ghost predicate RequirementRowSays(s: EvaluationSnapshot, q: EvidenceRequirement, r: RequirementRow) {
    && r.requirementId == q.requirementId && r.kind == q.kind && (r.satisfied <==> Evidenced(s, q))
    && (r.evidenceRefId.None? ==> Located(s.proposal.evidenceRefs, q.kind, None))
    && (r.evidenceRefId.Some? ==> exists e: EvidenceRef :: e.refId == r.evidenceRefId.value && Located(s.proposal.evidenceRefs, q.kind, Some(e)))
  }

  ghost predicate Unmet(s: EvaluationSnapshot) { exists q :: Demands(s, q) && !Evidenced(s, q) }

  ghost predicate RowDemanded(s: EvaluationSnapshot, r: RequirementRow) { exists q :: Demands(s, q) && RequirementRowSays(s, q, r) }
  ghost predicate DemandRecorded(s: EvaluationSnapshot, q: EvidenceRequirement, rs: seq<RequirementRow>) {
    exists r :: r in rs && RequirementRowSays(s, q, r)
  }
  ghost predicate DemandedRef(s: EvaluationSnapshot, e: EvidenceRef) {
    exists q :: Demands(s, q) && Located(s.proposal.evidenceRefs, q.kind, Some(e))
  }

  ghost predicate EvidenceSays(s: EvaluationSnapshot, t: TraceStep) {
    && t.OperatorStep? && t.subjectRef == s.proposal.proposalId && t.fact.Evidence?
    && t.pole == (if Unmet(s) then ALONE else TOGETHER) && (t.fact.allSatisfied <==> !Unmet(s))
    && |t.objectRefs| == |t.fact.requirementRows|
    && (forall i | 0 <= i < |t.objectRefs| :: t.objectRefs[i] == t.fact.requirementRows[i].requirementId)
    && (forall r | r in t.fact.requirementRows :: RowDemanded(s, r))
    && (forall q | Demands(s, q) :: DemandRecorded(s, q, t.fact.requirementRows))
    && forall e | e in t.evidenceRefs :: DemandedRef(s, e)
  }

  ghost predicate EvidenceRecord(s: EvaluationSnapshot, ts: seq<TraceStep>) { |ts| == 1 && EvidenceSays(s, ts[0]) }

  lemma SameRefs(s: EvaluationSnapshot)
    ensures Sort(RefKey, CanonicalSnapshot(s).proposal.evidenceRefs) == Sort(RefKey, s.proposal.evidenceRefs)
  {
    hide Sort, CanonicalSnapshot;
    SameProposal(s);
    SortIsIdempotent(RefKey, s.proposal.evidenceRefs);
  }

  lemma SameDemands(s: EvaluationSnapshot)
    ensures forall q :: q in Requirements(CanonicalSnapshot(s)) <==> Demands(s, q)
  {
    hide Requirements, Demands, CanonicalSnapshot;
    CanonicalNeeds(s);
    RequirementMembers(CanonicalSnapshot(s));
  }

  lemma RequirementTold(s: EvaluationSnapshot, q: EvidenceRequirement)
    ensures RequirementRowSays(s, q, RowOfRequirement(Sort(RefKey, s.proposal.evidenceRefs))(q))
    ensures Satisfied(Sort(RefKey, s.proposal.evidenceRefs), q) <==> Evidenced(s, q)
    ensures forall e :: e in BoundRef(Sort(RefKey, s.proposal.evidenceRefs))(q) ==> Located(s.proposal.evidenceRefs, q.kind, Some(e))
  {
    hide Sort, Meets, Located, Satisfied, Bound;
    SatisfiedExactly(s.proposal.evidenceRefs, q);
    BoundIsLast(s.proposal.evidenceRefs, q.kind);
  }

  lemma RequirementRows(s: EvaluationSnapshot, qs: seq<EvidenceRequirement>)
    requires forall q :: q in qs <==> Demands(s, q)
    ensures var rs := Each(RowOfRequirement(Sort(RefKey, s.proposal.evidenceRefs)), qs);
      && (forall r | r in rs :: RowDemanded(s, r)) && (forall q | Demands(s, q) :: DemandRecorded(s, q, rs))
      && forall i | 0 <= i < |qs| :: rs[i].requirementId == qs[i].requirementId
  {
    hide RowOfRequirement, Demands, Sort, RequirementRowSays, Evidenced;
    var refs := Sort(RefKey, s.proposal.evidenceRefs);
    forall q ensures RequirementRowSays(s, q, RowOfRequirement(refs)(q)) { RequirementTold(s, q); }
    var rs := Each(RowOfRequirement(refs), qs);
    forall r | r in rs ensures RowDemanded(s, r) {
      var i :| 0 <= i < |qs| && rs[i] == r;
      assert Demands(s, qs[i]) && RequirementRowSays(s, qs[i], r);
    }
    forall q | Demands(s, q) ensures DemandRecorded(s, q, rs) {
      var i :| 0 <= i < |qs| && qs[i] == q;
      assert rs[i] in rs && RequirementRowSays(s, q, rs[i]);
    }
    forall i | 0 <= i < |qs| ensures rs[i].requirementId == qs[i].requirementId { RowNames(refs, qs[i]); }
  }

  lemma RowNames(refs: seq<EvidenceRef>, q: EvidenceRequirement)
    ensures RowOfRequirement(refs)(q).requirementId == q.requirementId
  {
    hide Satisfied, Bound;
  }

  lemma RequirementRefs(s: EvaluationSnapshot, qs: seq<EvidenceRequirement>)
    requires forall q :: q in qs <==> Demands(s, q)
    ensures var refs := Sort(RefKey, s.proposal.evidenceRefs);
      && (AllSatisfied(refs, qs) <==> !Unmet(s))
      && forall e | e in Gather(BoundRef(refs), qs) :: DemandedRef(s, e)
  {
    hide BoundRef, Demands, Sort, Evidenced, Satisfied, Gather, Located;
    var refs := Sort(RefKey, s.proposal.evidenceRefs);
    forall q
      ensures Satisfied(refs, q) <==> Evidenced(s, q)
      ensures forall e :: e in BoundRef(refs)(q) ==> Located(s.proposal.evidenceRefs, q.kind, Some(e))
    {
      RequirementTold(s, q);
    }
    GatherMembers(BoundRef(refs), qs);
  }

  lemma EvidenceShown(s: EvaluationSnapshot, ts: seq<TraceStep>)
    requires AllShow(ts, EvidencePart(CanonicalSnapshot(s)).steps)
    ensures EvidenceRecord(s, ts)
  {
    hide CanonicalSnapshot, Sort, Gather, Requirements, Satisfied, RowOfRequirement, BoundRef, RequirementPredicates, RequirementGaps, AllSatisfied,
      Unmet, RowDemanded, DemandRecorded, DemandedRef, Demands;
    var c := CanonicalSnapshot(s);
    var refs := Sort(RefKey, s.proposal.evidenceRefs);
    var qs := Requirements(c);
    SameRefs(s);
    SameProposal(s);
    SameDemands(s);
    RequirementRows(s, qs);
    RequirementRefs(s, qs);
    SortMembers(RefKey, Gather(BoundRef(refs), qs));
  }

  /** F07 records every demanded requirement with the reference that decides it. */
  lemma EvidenceRecorded(normalize: Normalizer, s: EvaluationSnapshot, config: RuleConfig)
    requires Evaluation(normalize, s, config).Finalized?
    ensures EvidenceRecord(s, RuleSteps(normalize, s, config, 6))
  {
    hide Evaluation, CanonicalSnapshot, Parts, EvidencePart, EvidenceRecord, RuleSteps, AllShow, Thresholds, DuplicateCapability, PriorId;
    RuleShown(normalize, s, config, 6);
    PartSteps(CanonicalSnapshot(s), config);
    EvidenceShown(s, RuleSteps(normalize, s, config, 6));
  }

  // ----- F08

  ghost predicate SomeHigh(s: EvaluationSnapshot) {
    exists x, k :: GovernsAs(s, x, Approve) && k in x.consequenceRefs && k.divergence >= 0.5
  }

  /** An approved governing precedent without a consequence. */
  ghost predicate Unobserved(s: EvaluationSnapshot, id: string) {
    exists x :: GovernsAs(s, x, Approve) && x.consequenceRefs == [] && x.proposalId == id
  }

  ghost predicate SomeUnobserved(s: EvaluationSnapshot) { exists x :: GovernsAs(s, x, Approve) && x.consequenceRefs == [] }
  ghost predicate ConsequencesAsked(s: EvaluationSnapshot) { exists r :: Grants(s, r) && r.requireConsequence }

  predicate ReportRowSays(x: PrecedentRef, k: ConsequenceRef, r: ReportRow) {
    && r.precedentProposalId == x.proposalId && r.receiptId == k.receiptId && r.consequenceId == k.consequenceId
    && r.divergence == k.divergence && (r.more <==> k.divergence >= 0.5)
  }

  ghost predicate RowReported(s: EvaluationSnapshot, r: ReportRow) {
    exists x, k :: GovernsAs(s, x, Approve) && k in x.consequenceRefs && ReportRowSays(x, k, r)
  }

  ghost predicate ReportRecorded(x: PrecedentRef, k: ConsequenceRef, rs: seq<ReportRow>) {
    exists r :: r in rs && ReportRowSays(x, k, r)
  }

  function ReportTotal(xs: seq<PrecedentRef>): nat {
    if xs == [] then 0 else ReportTotal(xs[..|xs| - 1]) + |xs[|xs| - 1].consequenceRefs|
  }

  ghost predicate ConsequenceSays(s: EvaluationSnapshot, t: TraceStep) {
    var xs := ApprovedSorted(s);
    && t.OperatorStep? && t.subjectRef == s.proposal.proposalId && t.evidenceRefs == [] && t.fact.Consequences?
    && t.pole == (if SomeHigh(s) then MORE else LESS) && (t.fact.someMore <==> SomeHigh(s))
    && (t.fact.someMissingConsequence <==> ConsequencesAsked(s) && SomeUnobserved(s))
    && t.objectRefs == t.fact.qualifyingIds && |t.objectRefs| == |xs|
    && (forall i | 0 <= i < |xs| :: t.objectRefs[i] == xs[i].proposalId)
    && (forall id :: id in t.fact.missingIds <==> Unobserved(s, id))
    && t.fact.reportCount == |t.fact.reportRows| == ReportTotal(xs)
    && (forall r | r in t.fact.reportRows :: RowReported(s, r))
    && forall x, k | GovernsAs(s, x, Approve) && k in x.consequenceRefs :: ReportRecorded(x, k, t.fact.reportRows)
  }

  ghost predicate ConsequenceRecord(s: EvaluationSnapshot, ts: seq<TraceStep>) {
    |ts| == (if SomeDecided(s, Approve) then 1 else 0) && forall t | t in ts :: ConsequenceSays(s, t)
  }

  lemma {:induction false} ReportCount(xs: seq<PrecedentRef>)
    ensures |Gather(ReportsOf, Each(CanonicalPrecedent, xs))| == ReportTotal(xs)
  {
    hide Sort;
    if xs != [] {
      var n := |xs| - 1;
      ReportCount(xs[..n]);
      assert Each(CanonicalPrecedent, xs)[..n] == Each(CanonicalPrecedent, xs[..n]);
      SortFacts(ConsequenceKey, xs[n].consequenceRefs);
      assert |multiset(Sort(ConsequenceKey, xs[n].consequenceRefs))| == |Sort(ConsequenceKey, xs[n].consequenceRefs)|;
      assert |multiset(xs[n].consequenceRefs)| == |xs[n].consequenceRefs|;
    }
  }

  lemma SortSize<T>(key: T -> Key, s: seq<T>)
    ensures |Sort(key, s)| == |s|
  {
    hide Sort;
    SortFacts(key, s);
    assert |multiset(Sort(key, s))| == |Sort(key, s)| && |multiset(s)| == |s|;
  }

  /** The report stands under an approved governing precedent of the snapshot. */
  ghost predicate GivenBy(s: EvaluationSnapshot, r: Report) {
    exists x :: GovernsAs(s, x, Approve) && r.1 in x.consequenceRefs && r.0.proposalId == x.proposalId
  }

  lemma ReportsGiven(s: EvaluationSnapshot, config: RuleConfig)
    requires Thresholds(config)
    ensures var rs := Reports(Approved(CanonicalSnapshot(s), config));
      && (forall r | r in rs :: GivenBy(s, r))
      && forall x, k | GovernsAs(s, x, Approve) && k in x.consequenceRefs :: (CanonicalPrecedent(x), k) in rs
  {
    hide CanonicalSnapshot, CanonicalPrecedent, Reports, Approved, GovernsAs, Thresholds;
    var c := CanonicalSnapshot(s);
    ReportMembers(c, config);
    CanonicalGoverns(s);
    forall x
      ensures forall k :: k in CanonicalPrecedent(x).consequenceRefs <==> k in x.consequenceRefs
      ensures CanonicalPrecedent(x).proposalId == x.proposalId
    {
      CanonicalPrecedentKeeps(x);
    }
    forall r | r in Reports(Approved(c, config)) ensures GivenBy(s, r) {
      var x :| GovernsAs(s, x, Approve) && r.0 == CanonicalPrecedent(x);
      assert r.1 in x.consequenceRefs;
    }
  }

  lemma ReportRowGiven(config: RuleConfig, g: Report, x: PrecedentRef)
    requires Thresholds(config) && g.0.proposalId == x.proposalId
    ensures ReportRowSays(x, g.1, RowOfReport(config)(g))
  {}

  lemma RowsReported(s: EvaluationSnapshot, config: RuleConfig, given: seq<Report>)
    requires Thresholds(config) && forall g | g in given :: GivenBy(s, g)
    ensures forall r | r in Each(RowOfReport(config), given) :: RowReported(s, r)
  {
    hide GovernsAs, Thresholds, RowOfReport, ReportRowSays;
    var rs := Each(RowOfReport(config), given);
    forall r | r in rs ensures RowReported(s, r) {
      var i :| 0 <= i < |given| && rs[i] == r;
      assert GivenBy(s, given[i]);
      var x :| GovernsAs(s, x, Approve) && given[i].1 in x.consequenceRefs && given[i].0.proposalId == x.proposalId;
      ReportRowGiven(config, given[i], x);
    }
  }

  lemma RowRecorded(config: RuleConfig, given: seq<Report>, x: PrecedentRef, k: ConsequenceRef)
    requires Thresholds(config) && (CanonicalPrecedent(x), k) in given
    ensures ReportRecorded(x, k, Each(RowOfReport(config), given))
  {
    hide CanonicalPrecedent, Thresholds, RowOfReport, ReportRowSays;
    KeptFields(x);
    var i :| 0 <= i < |given| && given[i] == (CanonicalPrecedent(x), k);
    ReportRowGiven(config, given[i], x);
    assert Each(RowOfReport(config), given)[i] in Each(RowOfReport(config), given);
  }

  lemma ReportRows(s: EvaluationSnapshot, config: RuleConfig)
    requires Thresholds(config)
    ensures var rs := Each(RowOfReport(config), Reports(Approved(CanonicalSnapshot(s), config)));
      && (forall r | r in rs :: RowReported(s, r))
      && forall x, k | GovernsAs(s, x, Approve) && k in x.consequenceRefs :: ReportRecorded(x, k, rs)
  {
    hide CanonicalSnapshot, CanonicalPrecedent, Reports, Approved, GovernsAs, Thresholds, RowOfReport, RowReported, ReportRecorded, Each;
    ReportsGiven(s, config);
    var given := Reports(Approved(CanonicalSnapshot(s), config));
    RowsReported(s, config, given);
    forall x, k | GovernsAs(s, x, Approve) && k in x.consequenceRefs ensures ReportRecorded(x, k, Each(RowOfReport(config), given)) {
      RowRecorded(config, given, x, k);
    }
  }

  lemma HighGiven(s: EvaluationSnapshot, config: RuleConfig)
    requires Thresholds(config)
    ensures SomeMore(config, Reports(Approved(CanonicalSnapshot(s), config))) <==> SomeHigh(s)
  {
    hide CanonicalSnapshot, CanonicalPrecedent, Reports, Approved, GovernsAs;
    ReportsGiven(s, config);
    var given := Reports(Approved(CanonicalSnapshot(s), config));
    if x, k :| GovernsAs(s, x, Approve) && k in x.consequenceRefs && k.divergence >= 0.5 {
      assert (CanonicalPrecedent(x), k) in given && IsMore(config, (CanonicalPrecedent(x), k));
    }
  }

  lemma MissingGiven(s: EvaluationSnapshot, config: RuleConfig)
    requires Thresholds(config)
    ensures forall id :: id in MissingIds(Approved(CanonicalSnapshot(s), config)) <==> Unobserved(s, id)
    ensures MissingIds(Approved(CanonicalSnapshot(s), config)) != [] <==> SomeUnobserved(s)
  {
    hide CanonicalSnapshot, CanonicalPrecedent, Approved, GovernsAs, Filter, Thresholds;
    var c := CanonicalSnapshot(s);
    PrecedentMembers(c, config);
    CanonicalGoverns(s);
    FilterMembers(HasNoReport, Approved(c, config));
    EachMembers(ProposalId, Filter(HasNoReport, Approved(c, config)));
    Occupied(MissingIds(Approved(c, config)));
    forall x
      ensures CanonicalPrecedent(x).consequenceRefs == [] <==> x.consequenceRefs == []
      ensures CanonicalPrecedent(x).proposalId == x.proposalId
    {
      CanonicalPrecedentKeeps(x);
    }
    forall id ensures id in MissingIds(Approved(c, config)) <==> Unobserved(s, id) {
      if x :| GovernsAs(s, x, Approve) && x.consequenceRefs == [] && x.proposalId == id {
        assert CanonicalPrecedent(x) in Filter(HasNoReport, Approved(c, config)) && id == ProposalId(CanonicalPrecedent(x));
      }
      if id in MissingIds(Approved(c, config)) {
        var y :| y in Filter(HasNoReport, Approved(c, config)) && id == ProposalId(y);
        var x :| GovernsAs(s, x, Approve) && y == CanonicalPrecedent(x);
      }
    }
    if x :| GovernsAs(s, x, Approve) && x.consequenceRefs == [] { assert Unobserved(s, x.proposalId); }
  }

  lemma AskedGiven(s: EvaluationSnapshot, config: RuleConfig)
    requires Thresholds(config)
    ensures ConsequenceRequired(config, AllowRules(CanonicalSnapshot(s))) <==> ConsequencesAsked(s)
  {
    hide CanonicalSnapshot, Grants, AllowRules, Thresholds;
    CanonicalNeeds(s);
    RequiredMembers(CanonicalSnapshot(s), config);
  }

  lemma QualifyingIds(xs: seq<PrecedentRef>)
    ensures forall i | 0 <= i < |xs| :: Each(ProposalId, Each(CanonicalPrecedent, xs))[i] == xs[i].proposalId
  {
    hide CanonicalPrecedent;
    forall i | 0 <= i < |xs| ensures CanonicalPrecedent(xs[i]).proposalId == xs[i].proposalId { KeptFields(xs[i]); }
  }

  lemma ConsequenceShown(s: EvaluationSnapshot, config: RuleConfig, ts: seq<TraceStep>)
    requires Thresholds(config) && AllShow(ts, ConsequencePart(CanonicalSnapshot(s), config).steps)
    ensures ConsequenceRecord(s, ts)
  {
    hide CanonicalSnapshot, CanonicalPrecedent, Sort, Gather, Reports, Approved, ApprovedSorted, SomeMore, MissingIds, RowOfReport, SomeHigh,
      SomeUnobserved, Unobserved, ConsequencesAsked, ConsequenceRequired, AllowRules, RowReported, ReportRecorded, GovernsAs, DivergencePredicates,
      DivergenceGaps, ReportTotal, Thresholds;
    NoRefs();
    SortedLists(s, config);
    SortedMembers(s);
    Occupied(ApprovedSorted(s));
    SameProposal(s);
    ReportRows(s, config);
    HighGiven(s, config);
    MissingGiven(s, config);
    AskedGiven(s, config);
    QualifyingIds(ApprovedSorted(s));
    ReportsCounted(s, config);
  }

  lemma ReportsCounted(s: EvaluationSnapshot, config: RuleConfig)
    requires Thresholds(config)
    ensures |Reports(Approved(CanonicalSnapshot(s), config))| == ReportTotal(ApprovedSorted(s))
  {
    hide CanonicalSnapshot, Sort, Gather, ApprovedSorted, Approved, Thresholds;
    SortedLists(s, config);
    ReportCount(ApprovedSorted(s));
    SortSize(ReportKey, Gather(ReportsOf, Approved(CanonicalSnapshot(s), config)));
  }

  /** F08 records the consequences of the approved governing precedents and those without any. */
  lemma ConsequenceRecorded(normalize: Normalizer, s: EvaluationSnapshot, config: RuleConfig)
    requires Evaluation(normalize, s, config).Finalized?
    ensures ConsequenceRecord(s, RuleSteps(normalize, s, config, 7))
  {
    hide Evaluation, CanonicalSnapshot, Parts, ConsequencePart, ConsequenceRecord, RuleSteps, AllShow, Thresholds, DuplicateCapability, PriorId;
    RuleShown(normalize, s, config, 7);
    PartSteps(CanonicalSnapshot(s), config);
    ConsequenceShown(s, config, RuleSteps(normalize, s, config, 7));
  }

  // ----- F09

  ghost predicate SomeNeed(s: EvaluationSnapshot) { exists id :: Needs(s, id) }
  ghost predicate NeededIn(s: EvaluationSnapshot, state: DependencyState) { exists id :: Needs(s, id) && Declares(s, id, state) }
  ghost predicate Undeclared(s: EvaluationSnapshot, id: string) { forall state :: !Declares(s, id, state) }
  ghost predicate NeededMissing(s: EvaluationSnapshot) { exists id :: Needs(s, id) && Undeclared(s, id) }

  ghost predicate Incapable(s: EvaluationSnapshot) {
    NeededIn(s, StateFalse) || NeededIn(s, StateUnresolved) || NeededMissing(s)
  }

  ghost predicate CapabilityRowSays(s: EvaluationSnapshot, id: string, r: CapabilityRow) {
    && r.capabilityId == id
    && (r.state.None? ==> Undeclared(s, id)) && (r.state.Some? ==> Declares(s, id, r.state.value))
  }

  /** Evidence of a capability fact that a granting rule needs. */
  ghost predicate NeededEvidence(s: EvaluationSnapshot, e: EvidenceRef) {
    exists k :: k in s.capabilities && Needs(s, k.capabilityId) && e in k.evidenceRefs
  }

  ghost predicate CapabilitySays(s: EvaluationSnapshot, t: TraceStep) {
    && t.OperatorStep? && t.subjectRef == s.proposal.proposalId && t.fact.Capabilities?
    && t.pole == (if Incapable(s) then CANNOT else CAN)
    && (t.fact.someFalse <==> NeededIn(s, StateFalse)) && (t.fact.someUnresolvedCapability <==> NeededIn(s, StateUnresolved))
    && (t.fact.someMissing <==> NeededMissing(s))
    && (forall id :: id in t.objectRefs <==> Needs(s, id)) && Increasing(t.objectRefs)
    && |t.fact.capabilityRows| == |t.objectRefs|
    && (forall i | 0 <= i < |t.objectRefs| :: CapabilityRowSays(s, t.objectRefs[i], t.fact.capabilityRows[i]))
    && forall e :: e in t.evidenceRefs <==> NeededEvidence(s, e)
  }

  ghost predicate CapabilityRecord(s: EvaluationSnapshot, ts: seq<TraceStep>) {
    |ts| == (if SomeNeed(s) then 1 else 0) && forall t | t in ts :: CapabilitySays(s, t)
  }

  lemma StateGiven(s: EvaluationSnapshot, id: string)
    requires !DuplicateCapability(CanonicalSnapshot(s).capabilities)
    ensures var o := StateOf(CanonicalSnapshot(s).capabilities, id);
      && (forall state :: o == Some(state) <==> Declares(s, id, state)) && (o == None <==> Undeclared(s, id))
      && CapabilityRowSays(s, id, RowOfCapability(CanonicalSnapshot(s).capabilities)(id))
  {
    hide CanonicalSnapshot, Declares, DuplicateCapability, StateOf;
    var c := CanonicalSnapshot(s);
    CanonicalRows(s);
    forall state ensures StateOf(c.capabilities, id) == Some(state) <==> Declares(s, id, state) { DeclaredByState(c, id, state); }
  }

  lemma NeedsGiven(s: EvaluationSnapshot)
    ensures var ids := RequiredCapabilities(AllowRules(CanonicalSnapshot(s)));
      (forall id :: id in ids <==> Needs(s, id)) && Increasing(ids) && (ids == [] <==> !SomeNeed(s))
  {
    hide CanonicalSnapshot, Needs, AllowRules, Listing, Increasing;
    var c := CanonicalSnapshot(s);
    CanonicalNeeds(s);
    NeedMembers(c);
    ListingIncreases(set r, id | r in AllowRules(c) && id in r.requiredCapabilityIds :: id);
    Occupied(RequiredCapabilities(AllowRules(c)));
  }

  lemma StatesGiven(s: EvaluationSnapshot)
    requires !DuplicateCapability(CanonicalSnapshot(s).capabilities)
    ensures var (facts, ids) := (CanonicalSnapshot(s).capabilities, RequiredCapabilities(AllowRules(CanonicalSnapshot(s))));
      && (forall state :: SomeInState(facts, ids, Some(state)) <==> NeededIn(s, state))
      && (SomeInState(facts, ids, None) <==> NeededMissing(s))
  {
    hide CanonicalSnapshot, Needs, Declares, Undeclared, DuplicateCapability, RequiredCapabilities, AllowRules, StateOf, Increasing, RowOfCapability,
      CapabilityRowSays;
    NeedsGiven(s);
    var facts, ids := CanonicalSnapshot(s).capabilities, RequiredCapabilities(AllowRules(CanonicalSnapshot(s)));
    forall id
      ensures forall state :: StateOf(facts, id) == Some(state) <==> Declares(s, id, state)
      ensures StateOf(facts, id) == None <==> Undeclared(s, id)
    {
      StateGiven(s, id);
    }
  }

  /** Without duplicates the dictionary holds the one fact of an identity. */
  lemma {:induction false} FactFound(facts: seq<CapabilityFact>, k: CapabilityFact)
    requires !DuplicateCapability(facts)
    ensures FactOf(facts, k.capabilityId) == Some(k) <==> k in facts
  {
    if facts != [] {
      var front, last := facts[..|facts| - 1], facts[|facts| - 1];
      assert facts == front + [last];
      assert !DuplicateCapability(front);
      FactFound(front, k);
      if last.capabilityId == k.capabilityId && k in facts {
        var i :| 0 <= i < |facts| && facts[i] == k;
        assert i == |facts| - 1;
      }
    }
  }

  lemma FactNamed(facts: seq<CapabilityFact>, id: string)
    ensures FactOf(facts, id).Some? ==> FactOf(facts, id).value.capabilityId == id
  {}

  lemma EvidenceGiven(s: EvaluationSnapshot)
    requires !DuplicateCapability(CanonicalSnapshot(s).capabilities)
    ensures var (facts, ids) := (CanonicalSnapshot(s).capabilities, RequiredCapabilities(AllowRules(CanonicalSnapshot(s))));
      forall e :: e in Gather(CapabilityEvidence(facts), ids) <==> NeededEvidence(s, e)
  {
    hide CanonicalSnapshot, Needs, DuplicateCapability, RequiredCapabilities, AllowRules, Gather, FactOf, Increasing;
    NeedsGiven(s);
    FactsGiven(s);
    var facts, ids := CanonicalSnapshot(s).capabilities, RequiredCapabilities(AllowRules(CanonicalSnapshot(s)));
    GatherMembers(CapabilityEvidence(facts), ids);
    forall e ensures e in Gather(CapabilityEvidence(facts), ids) <==> NeededEvidence(s, e) {
      if e in Gather(CapabilityEvidence(facts), ids) {
        var id :| id in ids && e in CapabilityEvidence(facts)(id);
        FactNamed(facts, id);
        FactFound(facts, FactOf(facts, id).value);
      }
      if k :| k in s.capabilities && Needs(s, k.capabilityId) && e in k.evidenceRefs {
        FactFound(facts, k);
        assert k.capabilityId in ids && e in CapabilityEvidence(facts)(k.capabilityId);
      }
    }
  }

  lemma FactsGiven(s: EvaluationSnapshot)
    ensures forall k :: k in CanonicalSnapshot(s).capabilities <==> k in s.capabilities
  {
    hide Sort, CanonicalRules;
    SortMembers(CapabilityKey, s.capabilities);
  }

  lemma CapabilityShown(s: EvaluationSnapshot, ts: seq<TraceStep>)
    requires !DuplicateCapability(CanonicalSnapshot(s).capabilities) && AllShow(ts, CapabilityPart(CanonicalSnapshot(s)).steps)
    ensures CapabilityRecord(s, ts)
  {
    hide CanonicalSnapshot, Needs, DuplicateCapability, RequiredCapabilities, AllowRules, Gather, StateOf, SomeInState, NeededIn, NeededMissing,
      NeededEvidence, SomeNeed, CapabilityRowSays, RowOfCapability, CapabilityEvidence, FalseCapability, OpenCapability, CapabilityGaps, Sort, Increasing;
    var facts, ids := CanonicalSnapshot(s).capabilities, RequiredCapabilities(AllowRules(CanonicalSnapshot(s)));
    NeedsGiven(s);
    StatesGiven(s);
    EvidenceGiven(s);
    SameProposal(s);
    SortMembers(RefKey, Gather(CapabilityEvidence(facts), ids));
    forall id ensures CapabilityRowSays(s, id, RowOfCapability(facts)(id)) { StateGiven(s, id); }
  }

  /** F09 records the state of every needed capability and the evidence for it. */
  lemma CapabilityRecorded(normalize: Normalizer, s: EvaluationSnapshot, config: RuleConfig)
    requires Evaluation(normalize, s, config).Finalized?
    ensures CapabilityRecord(s, RuleSteps(normalize, s, config, 8))
  {
    hide Evaluation, CanonicalSnapshot, Parts, CapabilityPart, CapabilityRecord, RuleSteps, AllShow, Thresholds, DuplicateCapability, PriorId;
    RuleShown(normalize, s, config, 8);
    PartSteps(CanonicalSnapshot(s), config);
    CapabilityShown(s, RuleSteps(normalize, s, config, 8));
  }

  // ----- F10

  /** The step carries the recorded fields of the dependency and whether its condition holds. */
  predicate FormulaSays(d: DependencyRef, thenPart: bool, t: TraceStep) {
    && t.OperatorStep? && t.subjectRef == d.dependencyId && t.objectRefs == [] && t.evidenceRefs == Sort(RefKey, d.evidenceRefs)
    && t.pole == (if thenPart then THEN else IF) && t.fact.Formula? && t.fact.thenPart == thenPart
    && t.fact.dependency.dependencyId == d.dependencyId && t.fact.dependency.state == d.state
    && t.fact.dependency.predicateText == d.predicateText && t.fact.dependency.expectedJson == d.expectedJson
    && t.fact.dependency.observedJson == d.observedJson && t.fact.dependency.snapshotDigest == d.snapshotDigest
    && t.fact.dependency.necessaryForYes == d.necessaryForYes && t.fact.dependency.sufficientIfTrue == d.sufficientIfTrue
    && (t.fact.predicateSatisfied <==> d.state == StateTrue)
  }

  ghost predicate FormulaRecord(s: EvaluationSnapshot, ts: seq<TraceStep>) {
    var ds := Sort(DependencyKey, s.dependencies);
    && |ts| == 2 * |ds|
    && forall i | 0 <= i < |ds| :: FormulaSays(ds[i], false, ts[2 * i]) && FormulaSays(ds[i], true, ts[2 * i + 1])
  }

  ghost function FormulaStepsOf(normalize: Normalizer, s: EvaluationSnapshot, config: RuleConfig): seq<TraceStep> {
    var o := Evaluation(normalize, s, config);
    if o.Finalized? then StepsOf(o.result.trace, F10) else []
  }

  lemma FormulaShown(d: DependencyRef, thenPart: bool, t: TraceStep)
    requires Shows(t, FormulaStep(d, thenPart))
    ensures FormulaSays(d, thenPart, t)
  {
    hide Sort;
  }

  /** F10 records every dependency twice, as IF and as THEN, sorted by identity. */
  lemma FormulaRecorded(normalize: Normalizer, s: EvaluationSnapshot, config: RuleConfig)
    requires Evaluation(normalize, s, config).Finalized?
    ensures FormulaRecord(s, FormulaStepsOf(normalize, s, config))
  {
    hide Evaluation, Sort, Shows, FormulaStep, FormulaSays, StepsOf;
    FormulaTrace(normalize, s, config);
    var ts, ds := FormulaStepsOf(normalize, s, config), Sort(DependencyKey, s.dependencies);
    forall i | 0 <= i < |ds| ensures FormulaSays(ds[i], false, ts[2 * i]) && FormulaSays(ds[i], true, ts[2 * i + 1]) {
      FormulaShown(ds[i], false, ts[2 * i]);
      FormulaShown(ds[i], true, ts[2 * i + 1]);
    }
  }
}
