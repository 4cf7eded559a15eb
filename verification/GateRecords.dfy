/** What the fact steps of a finished trace record, told from the snapshot as it was given. */
module GateRecords {
  import opened Canonical
  import opened Gate
  import opened GateAnswers
  import opened GateFields
  import opened GateRules
  import opened GateSteps
  import opened GateVerdict
  import opened Json
  import opened Models
  import opened Ordering
  import opened Sequences

  // ----- the parts one by one

  lemma PartSteps(c: EvaluationSnapshot, config: RuleConfig)
    ensures var ps := Parts(c, config, PriorId(c));
      && ps[0] == Part(F01, BindFindings(c, config, PriorId(c)).steps) && ps[1] == Part(F02, PolicyPart(c).steps)
      && ps[2] == Part(F03, ExclusionPart(c).steps) && ps[3] == Part(F04, RetrievalPart(c, config).steps)
      && ps[4] == Part(F05, IdentityFindings(c.proposal, NearOnes(c, config)).steps) && ps[5] == Part(F06, ConflictPart(c, config).steps)
      && ps[6] == Part(F07, EvidencePart(c).steps) && ps[7] == Part(F08, ConsequencePart(c, config).steps)
      && ps[8] == Part(F09, CapabilityPart(c).steps)
  {
    hide BindFindings, ScopeFindings, ExclusionFindings, RetrievalFindings, IdentityFindings, ConflictFindings, EvidenceFindings,
      ConsequenceFindings, CapabilityFindings, DependencyFindings, AggregateFindings, FactFindings;
  }

  /** The steps of one of the rules F01 to F09. */
  ghost function RuleSteps(normalize: Normalizer, s: EvaluationSnapshot, config: RuleConfig, k: nat): seq<TraceStep>
    requires k < 9
  {
    var o := Evaluation(normalize, s, config);
    if o.Finalized? then StepsOf(o.result.trace, [F01, F02, F03, F04, F05, F06, F07, F08, F09][k]) else []
  }

  lemma RuleShown(normalize: Normalizer, s: EvaluationSnapshot, config: RuleConfig, k: nat)
    requires Evaluation(normalize, s, config).Finalized? && k < 9
    ensures var c := CanonicalSnapshot(s);
      Thresholds(config) && !DuplicateCapability(c.capabilities)
      && AllShow(RuleSteps(normalize, s, config, k), Parts(c, config, PriorId(c))[k].steps)
  {
    hide Evaluation, CanonicalSnapshot, Parts, AllShow, StepsOf, DuplicateCapability, Thresholds;
    FinishedPart(normalize, s, config, k);
    PartRule(CanonicalSnapshot(s), config, PriorId(CanonicalSnapshot(s)), k);
  }

  /** At most one step, which shows the one descriptor. */
  lemma OneShown(ts: seq<TraceStep>, ds: seq<Descriptor>)
    requires AllShow(ts, ds) && |ds| <= 1
    ensures |ts| == |ds| && (ts == [] <==> ds == [])
    ensures ds != [] ==> ts == [ts[0]] && Shows(ts[0], ds[0])
  {
    hide Shows;
  }

  lemma NoRefs()
    ensures Sort(RefKey, []) == []
  {}

  // ----- F01

  ghost predicate BindingSays(s: EvaluationSnapshot, config: RuleConfig, t: TraceStep) {
    && t.OperatorStep? && t.pole == THIS && t.subjectRef == s.proposal.proposalId && t.objectRefs == [] && t.evidenceRefs == []
    && t.fact.Binding? && t.fact.proposalId == s.proposal.proposalId && t.fact.proposalDigest == s.proposal.proposalDigest
    && t.fact.actionDigest == s.proposal.actionDigest && t.fact.snapshotId == s.snapshotId && t.fact.snapshotDigest == s.snapshotDigest
    && t.fact.profileVersion == s.profileVersion && t.fact.policyDigest == s.policy.policyDigest && t.fact.ruleConfigDigest == config.digest
    && t.fact.capturedAt == s.capturedAt
    && t.fact.priorEvaluationId == (if s.prior.Some? then Some(s.prior.value.result.evaluationId) else None)
    && t.fact.priorTraceDigest == (if s.prior.Some? then Some(s.prior.value.result.traceDigest) else None)
  }

  lemma BindPart(s: EvaluationSnapshot, config: RuleConfig, t: TraceStep)
    requires var c := CanonicalSnapshot(s); Shows(t, BindFindings(c, config, PriorId(c)).steps[0])
    ensures BindingSays(s, config, t)
  {
    hide Sort, CanonicalRules;
    NoRefs();
  }

  lemma OneBinding(c: EvaluationSnapshot, config: RuleConfig)
    ensures |BindFindings(c, config, PriorId(c)).steps| == 1
  {}

  ghost predicate BindingRecord(s: EvaluationSnapshot, config: RuleConfig, ts: seq<TraceStep>) { |ts| == 1 && BindingSays(s, config, ts[0]) }

  lemma BindingShown(s: EvaluationSnapshot, config: RuleConfig, ts: seq<TraceStep>)
    requires var c := CanonicalSnapshot(s); AllShow(ts, BindFindings(c, config, PriorId(c)).steps)
    ensures BindingRecord(s, config, ts)
  {
    hide CanonicalSnapshot, BindFindings, BindingSays, Shows, AllShow;
    var c := CanonicalSnapshot(s);
    OneBinding(c, config);
    OneShown(ts, BindFindings(c, config, PriorId(c)).steps);
    BindPart(s, config, ts[0]);
  }

  /** F01 records what was judged: proposal, snapshot, policy, configuration and prior. */
  lemma BindingRecorded(normalize: Normalizer, s: EvaluationSnapshot, config: RuleConfig)
    requires Evaluation(normalize, s, config).Finalized?
    ensures BindingRecord(s, config, RuleSteps(normalize, s, config, 0))
  {
    hide Evaluation, CanonicalSnapshot, Parts, BindFindings, BindingRecord, RuleSteps, AllShow, Thresholds, DuplicateCapability, PriorId;
    RuleShown(normalize, s, config, 0);
    PartSteps(CanonicalSnapshot(s), config);
    BindingShown(s, config, RuleSteps(normalize, s, config, 0));
  }

  // ----- F02

  ghost predicate SomeGrant(s: EvaluationSnapshot) { exists r :: Grants(s, r) }
  ghost predicate SomeProhibition(s: EvaluationSnapshot) { exists r :: Prohibits(s, r) }
  ghost predicate AppliesById(s: EvaluationSnapshot, id: string) { exists r :: (Grants(s, r) || Prohibits(s, r)) && r.ruleId == id }

  /** Which rules apply, and that a denying one puts the action outside. */
  ghost predicate ScopeSays(s: EvaluationSnapshot, t: TraceStep) {
    && t.OperatorStep? && t.subjectRef == s.proposal.proposalId && t.evidenceRefs == [] && t.fact.Scope?
    && (t.fact.hasAllow <==> SomeGrant(s)) && (t.fact.hasDeny <==> SomeProhibition(s))
    && t.pole == (if SomeProhibition(s) then OUTSIDE else INSIDE)
    && t.objectRefs == t.fact.applicableRuleIds
    && forall id :: id in t.fact.applicableRuleIds <==> AppliesById(s, id)
  }

  lemma ApplicableIds(c: EvaluationSnapshot)
    ensures forall id :: id in Each(RuleId, Applicable(c)) <==> AppliesById(c, id)
  {
    hide Sort, Filter, Each;
    FilterMembers(Applies(c.proposal), c.policy.rules);
    SortMembers(RuleKey, Filter(Applies(c.proposal), c.policy.rules));
    EachMembers(RuleId, Applicable(c));
    forall id ensures id in Each(RuleId, Applicable(c)) <==> AppliesById(c, id) {
      if r :| r in Applicable(c) && id == RuleId(r) {
        assert r.effect == Allow || r.effect == Deny;
        assert Grants(c, r) || Prohibits(c, r);
      }
      if r :| (Grants(c, r) || Prohibits(c, r)) && r.ruleId == id { assert r in Applicable(c) && id == RuleId(r); }
    }
  }

  lemma ScopePart(c: EvaluationSnapshot)
    ensures |PolicyPart(c).steps| <= 1 && (PolicyPart(c).steps == [] <==> !SomeGrant(c) && !SomeProhibition(c))
    ensures forall t | PolicyPart(c).steps != [] && Shows(t, PolicyPart(c).steps[0]) :: ScopeSays(c, t)
  {
    hide Grants, Prohibits, Applicable, AllowRules, DenyRules, Each, AppliesById;
    NoRefs();
    ApplicableMembers(c);
    ApplicableIds(c);
    Occupied(AllowRules(c));
    Occupied(DenyRules(c));
  }

  lemma CanonicalProhibits(s: EvaluationSnapshot)
    ensures var c := CanonicalSnapshot(s);
      && (forall r | Prohibits(s, r) :: Prohibits(c, CanonicalRule(r)))
      && forall r | Prohibits(c, r) :: exists q :: Prohibits(s, q) && r == CanonicalRule(q)
  {
    hide Sort, Listing, CanonicalRules;
    CanonicalRuleMembers(s);
    forall r | Prohibits(CanonicalSnapshot(s), r) ensures exists q :: Prohibits(s, q) && r == CanonicalRule(q) {
      var q :| q in s.policy.rules && r == CanonicalRule(q);
      assert Prohibits(s, q);
    }
  }

  lemma RuleIdKept()
    ensures forall r :: CanonicalRule(r).ruleId == r.ruleId
  {
    forall r ensures CanonicalRule(r).ruleId == r.ruleId {}
  }

  lemma SameIds(s: EvaluationSnapshot, id: string)
    ensures AppliesById(CanonicalSnapshot(s), id) <==> AppliesById(s, id)
  {
    hide CanonicalSnapshot, CanonicalRule, Grants, Prohibits;
    CanonicalGrants(s);
    CanonicalProhibits(s);
    RuleIdKept();
    var c := CanonicalSnapshot(s);
    if r :| (Grants(s, r) || Prohibits(s, r)) && r.ruleId == id {
      assert (Grants(c, CanonicalRule(r)) || Prohibits(c, CanonicalRule(r))) && CanonicalRule(r).ruleId == id;
    }
  }

  lemma SameScope(s: EvaluationSnapshot)
    ensures var c := CanonicalSnapshot(s);
      c.proposal.proposalId == s.proposal.proposalId && (SomeGrant(c) <==> SomeGrant(s)) && (SomeProhibition(c) <==> SomeProhibition(s))
  {
    hide Grants, Prohibits, Sort, CanonicalRules;
    CanonicalGrants(s);
    CanonicalNeeds(s);
  }

  ghost predicate ScopeRecord(s: EvaluationSnapshot, ts: seq<TraceStep>) {
    |ts| == (if SomeGrant(s) || SomeProhibition(s) then 1 else 0) && forall t | t in ts :: ScopeSays(s, t)
  }

  lemma ScopeShown(s: EvaluationSnapshot, ts: seq<TraceStep>)
    requires AllShow(ts, PolicyPart(CanonicalSnapshot(s)).steps)
    ensures ScopeRecord(s, ts)
  {
    hide CanonicalSnapshot, PolicyPart, Shows, SomeGrant, SomeProhibition, AppliesById, AllShow;
    var c := CanonicalSnapshot(s);
    ScopePart(c);
    OneShown(ts, PolicyPart(c).steps);
    SameScope(s);
    forall id ensures AppliesById(c, id) <==> AppliesById(s, id) { SameIds(s, id); }
  }

  /** F02 records the rules that apply; without any it has no step. */
  lemma ScopeRecorded(normalize: Normalizer, s: EvaluationSnapshot, config: RuleConfig)
    requires Evaluation(normalize, s, config).Finalized?
    ensures ScopeRecord(s, RuleSteps(normalize, s, config, 1))
  {
    hide Evaluation, CanonicalSnapshot, Parts, PolicyPart, ScopeRecord, RuleSteps, AllShow, Thresholds, DuplicateCapability, PriorId;
    RuleShown(normalize, s, config, 1);
    PartSteps(CanonicalSnapshot(s), config);
    ScopeShown(s, RuleSteps(normalize, s, config, 1));
  }

  // ----- F03

  ghost predicate SomeExclusion(s: EvaluationSnapshot) {
    exists e :: e in s.exclusions && e.actionTypeKey == s.proposal.actionTypeKey && e.targetKey == s.proposal.targetKey
  }

  predicate ExclusionRowSays(p: Proposal, e: ExclusionRef, r: ExclusionRow) {
    && r.exclusionId == e.exclusionId && r.exclusionDigest == e.exclusionDigest
    && (r.same <==> e.actionTypeKey == p.actionTypeKey && e.targetKey == p.targetKey)
    && r.actionType == e.actionType && r.actionTypeKey == e.actionTypeKey && r.target == e.target && r.targetKey == e.targetKey
    && r.sourceProposalId == e.sourceProposalId && r.sourceEvaluationId == e.sourceEvaluationId && r.sourceTraceDigest == e.sourceTraceDigest
    && r.sourceDecisionId == e.sourceDecisionId && r.sourceDecision == e.sourceDecisionValue
    && r.sourceDecisionDigest == e.sourceDecisionDigest
  }

  ghost predicate ExclusionSays(s: EvaluationSnapshot, t: TraceStep) {
    var es := Sort(ExclusionKey, s.exclusions);
    && t.OperatorStep? && t.subjectRef == s.proposal.proposalId && t.evidenceRefs == [] && t.fact.Exclusions?
    && t.pole == (if SomeExclusion(s) then SAME else NOT_SAME) && (t.fact.someSame <==> SomeExclusion(s))
    && |t.objectRefs| == |t.fact.exclusionRows| == |es|
    && (forall i | 0 <= i < |es| :: t.objectRefs[i] == es[i].exclusionId)
    && forall i | 0 <= i < |es| :: ExclusionRowSays(s.proposal, es[i], t.fact.exclusionRows[i])
  }

  lemma ExclusionStep(s: EvaluationSnapshot, p: Proposal)
    requires p.proposalId == s.proposal.proposalId && p.actionTypeKey == s.proposal.actionTypeKey && p.targetKey == s.proposal.targetKey
    ensures var f := ExclusionFindings(p, Sort(ExclusionKey, s.exclusions));
      |f.steps| == (if s.exclusions == [] then 0 else 1) && forall t | f.steps != [] && Shows(t, f.steps[0]) :: ExclusionSays(s, t)
  {
    hide Sort;
    NoRefs();
    SortMembers(ExclusionKey, s.exclusions);
    Occupied(s.exclusions);
    Occupied(Sort(ExclusionKey, s.exclusions));
    var es := Sort(ExclusionKey, s.exclusions);
    assert SomeExcludes(p, es) <==> SomeExclusion(s);
    forall i | 0 <= i < |es| ensures ExclusionRowSays(s.proposal, es[i], Each(RowOfExclusion(p), es)[i]) {}
  }

  lemma SameExclusions(s: EvaluationSnapshot)
    ensures var c := CanonicalSnapshot(s);
      && SortedExclusions(c) == Sort(ExclusionKey, s.exclusions) && c.proposal.proposalId == s.proposal.proposalId
      && c.proposal.actionTypeKey == s.proposal.actionTypeKey && c.proposal.targetKey == s.proposal.targetKey
  {
    hide Sort, CanonicalRules;
    SortIsIdempotent(ExclusionKey, s.exclusions);
  }

  ghost predicate ExclusionRecord(s: EvaluationSnapshot, ts: seq<TraceStep>) {
    |ts| == (if s.exclusions == [] then 0 else 1) && forall t | t in ts :: ExclusionSays(s, t)
  }

  lemma ExclusionShown(s: EvaluationSnapshot, ts: seq<TraceStep>)
    requires AllShow(ts, ExclusionPart(CanonicalSnapshot(s)).steps)
    ensures ExclusionRecord(s, ts)
  {
    hide CanonicalSnapshot, ExclusionFindings, Shows, ExclusionSays, AllShow, Sort;
    var c := CanonicalSnapshot(s);
    SameExclusions(s);
    ExclusionStep(s, c.proposal);
    OneShown(ts, ExclusionPart(c).steps);
  }

  /** F03 records every exclusion and whether one is of exactly this action on this target. */
  lemma ExclusionRecorded(normalize: Normalizer, s: EvaluationSnapshot, config: RuleConfig)
    requires Evaluation(normalize, s, config).Finalized?
    ensures ExclusionRecord(s, RuleSteps(normalize, s, config, 2))
  {
    hide Evaluation, CanonicalSnapshot, Parts, ExclusionPart, ExclusionRecord, RuleSteps, AllShow, Thresholds, DuplicateCapability, PriorId;
    RuleShown(normalize, s, config, 2);
    PartSteps(CanonicalSnapshot(s), config);
    ExclusionShown(s, RuleSteps(normalize, s, config, 2));
  }

  // ----- the precedents that matter, sorted

  predicate CloseEnough(x: PrecedentRef) { x.similarity.Some? && x.similarity.value >= 0.85 }

  function SameAction(p: Proposal): PrecedentRef -> bool {
    (x: PrecedentRef) => x.actionTypeKey == p.actionTypeKey && x.targetKey == p.targetKey
  }

  predicate WasApproved(x: PrecedentRef) { x.decision == Some(Approve) }

  function NearSorted(s: EvaluationSnapshot): seq<PrecedentRef> { Filter(CloseEnough, Sort(PrecedentKey, s.precedents)) }
  function SameSorted(s: EvaluationSnapshot): seq<PrecedentRef> { Filter(SameAction(s.proposal), NearSorted(s)) }
  function ApprovedSorted(s: EvaluationSnapshot): seq<PrecedentRef> { Filter(WasApproved, SameSorted(s)) }

  lemma {:induction false} FilterEach<T, U>(p: U -> bool, f: T -> U, q: T -> bool, s: seq<T>)
    requires forall x :: p(f(x)) <==> q(x)
    ensures Filter(p, Each(f, s)) == Each(f, Filter(q, s))
  {
    if s != [] {
      var n := |s| - 1;
      FilterEach(p, f, q, s[..n]);
      assert Each(f, s)[..n] == Each(f, s[..n]);
    }
  }

  lemma SortedOnce(s: EvaluationSnapshot)
    ensures SortedPrecedents(CanonicalSnapshot(s)) == Each(CanonicalPrecedent, Sort(PrecedentKey, s.precedents))
  {
    hide Sort, CanonicalRules, CanonicalPrecedent, Each;
    KeysKept();
    SortEach(PrecedentKey, CanonicalPrecedent, Sort(PrecedentKey, s.precedents));
    SortIsIdempotent(PrecedentKey, s.precedents);
  }

  lemma PrecedentTests(s: EvaluationSnapshot, config: RuleConfig, x: PrecedentRef)
    requires Thresholds(config)
    ensures IsNear(config)(CanonicalPrecedent(x)) <==> CloseEnough(x)
    ensures IsSame(CanonicalSnapshot(s).proposal)(CanonicalPrecedent(x)) <==> SameAction(s.proposal)(x)
    ensures IsApproved(CanonicalPrecedent(x)) <==> WasApproved(x)
  {
    hide Sort, CanonicalRules;
  }

  lemma SortedLists(s: EvaluationSnapshot, config: RuleConfig)
    requires Thresholds(config)
    ensures var c := CanonicalSnapshot(s);
      && NearOnes(c, config) == Each(CanonicalPrecedent, NearSorted(s))
      && Qualifying(c, config) == Each(CanonicalPrecedent, SameSorted(s))
      && Approved(c, config) == Each(CanonicalPrecedent, ApprovedSorted(s))
  {
    hide Sort, CanonicalSnapshot, CanonicalPrecedent, Each, Filter, SortedPrecedents, NearnessOf, CloseEnough, WasApproved, IsApproved;
    var c := CanonicalSnapshot(s);
    SortedOnce(s);
    forall x
      ensures IsNear(config)(CanonicalPrecedent(x)) <==> CloseEnough(x)
      ensures IsSame(c.proposal)(CanonicalPrecedent(x)) <==> SameAction(s.proposal)(x)
      ensures IsApproved(CanonicalPrecedent(x)) <==> WasApproved(x)
    {
      PrecedentTests(s, config, x);
    }
    FilterEach(IsNear(config), CanonicalPrecedent, CloseEnough, Sort(PrecedentKey, s.precedents));
    FilterEach(IsSame(c.proposal), CanonicalPrecedent, SameAction(s.proposal), NearSorted(s));
    FilterEach(IsApproved, CanonicalPrecedent, WasApproved, SameSorted(s));
  }

  lemma SortedMembers(s: EvaluationSnapshot)
    ensures forall x :: x in Sort(PrecedentKey, s.precedents) <==> x in s.precedents
    ensures forall x :: x in NearSorted(s) <==> x in s.precedents && CloseEnough(x)
    ensures forall x :: x in SameSorted(s) <==> Governs(s, x)
    ensures forall x :: x in ApprovedSorted(s) <==> GovernsAs(s, x, Approve)
  {
    hide Sort, Filter;
    SortMembers(PrecedentKey, s.precedents);
    FilterMembers(CloseEnough, Sort(PrecedentKey, s.precedents));
    FilterMembers(SameAction(s.proposal), NearSorted(s));
    FilterMembers(WasApproved, SameSorted(s));
  }

  lemma SameProposal(s: EvaluationSnapshot)
    ensures var p := CanonicalSnapshot(s).proposal;
      && p.proposalId == s.proposal.proposalId && p.actionTypeKey == s.proposal.actionTypeKey && p.targetKey == s.proposal.targetKey
      && p.evidenceRefs == Sort(RefKey, s.proposal.evidenceRefs)
  {
    hide Sort, CanonicalRules;
  }

  lemma KeptFields(x: PrecedentRef)
    ensures var y := CanonicalPrecedent(x);
      y.proposalId == x.proposalId && y.evaluationId == x.evaluationId && y.similarity == x.similarity
      && y.similarityErrorCode == x.similarityErrorCode && y.decision == x.decision && y.decisionId == x.decisionId
      && y.actionTypeKey == x.actionTypeKey && y.targetKey == x.targetKey
  {
    hide Sort;
  }

  // ----- F04

  /** How many of the precedents have no similarity. */
  function WithoutSimilarity(xs: seq<PrecedentRef>): nat {
    if xs == [] then 0 else WithoutSimilarity(xs[..|xs| - 1]) + if xs[|xs| - 1].similarity.None? then 1 else 0
  }

  predicate CandidateRowSays(x: PrecedentRef, r: CandidateRow) {
    && r.proposalId == x.proposalId && r.evaluationId == x.evaluationId && r.similarity == x.similarity
    && r.errorCode == x.similarityErrorCode
    && r.nearness == if x.similarity.None? then Unknown else if x.similarity.value >= 0.85 then Near else Far
  }

  ghost predicate SomeNear(s: EvaluationSnapshot) { exists x :: x in s.precedents && CloseEnough(x) }
  ghost predicate SomeBlind(s: EvaluationSnapshot) { exists x :: x in s.precedents && x.similarity.None? }
  ghost predicate SomeSeen(s: EvaluationSnapshot) { exists x :: x in s.precedents && x.similarity.Some? }

  ghost predicate RetrievalSays(s: EvaluationSnapshot, t: TraceStep) {
    var xs := Sort(PrecedentKey, s.precedents);
    && t.OperatorStep? && t.subjectRef == s.proposal.proposalId && t.evidenceRefs == [] && t.fact.Retrieval?
    && t.pole == (if SomeNear(s) then NEAR else FAR) && (t.fact.someNear <==> SomeNear(s))
    && (t.fact.someUnresolved <==> SomeBlind(s)) && (t.fact.allUnresolved <==> SomeBlind(s) && !SomeSeen(s))
    && t.fact.candidateCount == |s.precedents| && t.fact.unresolvedCount == WithoutSimilarity(s.precedents)
    && t.fact.validCount == |s.precedents| - WithoutSimilarity(s.precedents)
    && |t.objectRefs| == |t.fact.candidateRows| == |xs|
    && (forall i | 0 <= i < |xs| :: t.objectRefs[i] == xs[i].proposalId)
    && forall i | 0 <= i < |xs| :: CandidateRowSays(xs[i], t.fact.candidateRows[i])
  }

  function BlindOne(x: PrecedentRef): seq<int> { if x.similarity.None? then [0] else [] }

  lemma {:induction false} BlindCount(xs: seq<PrecedentRef>)
    ensures WithoutSimilarity(xs) == |Gather(BlindOne, xs)| == |Filter(HasNoSimilarity, xs)| == |xs| - |Filter(HasSimilarity, xs)|
  {
    if xs != [] { BlindCount(xs[..|xs| - 1]); }
  }

  lemma BlindSorted(xs: seq<PrecedentRef>)
    ensures var ys := Each(CanonicalPrecedent, Sort(PrecedentKey, xs));
      && |ys| == |xs| && |Filter(HasNoSimilarity, ys)| == WithoutSimilarity(xs)
      && |Filter(HasSimilarity, ys)| == |xs| - WithoutSimilarity(xs)
  {
    hide Sort, CanonicalPrecedent, Gather, Filter, WithoutSimilarity;
    var sorted := Sort(PrecedentKey, xs);
    SortFacts(PrecedentKey, xs);
    GatherRearranged(BlindOne, sorted, xs);
    assert |multiset(Gather(BlindOne, sorted))| == |Gather(BlindOne, sorted)|;
    assert |multiset(sorted)| == |sorted| && |multiset(xs)| == |xs|;
    BlindCount(sorted);
    BlindCount(xs);
    forall x ensures CanonicalPrecedent(x).similarity == x.similarity { KeptFields(x); }
    FilterEach(HasNoSimilarity, CanonicalPrecedent, HasNoSimilarity, sorted);
    FilterEach(HasSimilarity, CanonicalPrecedent, HasSimilarity, sorted);
  }

  ghost predicate SameNearness(s: EvaluationSnapshot, config: RuleConfig) {
    var ys := SortedPrecedents(CanonicalSnapshot(s));
    && (Filter(IsNear(config), ys) != [] <==> SomeNear(s)) && (SomeUnresolved(ys) <==> SomeBlind(s))
    && (ys != [] && AllUnresolved(ys) <==> SomeBlind(s) && !SomeSeen(s))
  }

  lemma NearnessFlags(s: EvaluationSnapshot, config: RuleConfig)
    requires Thresholds(config)
    ensures SameNearness(s, config)
  {
    hide Sort, CanonicalSnapshot, CanonicalPrecedent, Filter, Thresholds, IsNear, CloseEnough;
    SortedOnce(s);
    SortedLists(s, config);
    SortedMembers(s);
    var xs := Sort(PrecedentKey, s.precedents);
    var ys := Each(CanonicalPrecedent, xs);
    assert ys == SortedPrecedents(CanonicalSnapshot(s));
    Occupied(NearSorted(s));
    EachMembers(CanonicalPrecedent, xs);
    forall x ensures CanonicalPrecedent(x).similarity == x.similarity { KeptFields(x); }
    if x :| x in xs && x.similarity.None? { assert CanonicalPrecedent(x) in ys; }
    if x :| x in xs && x.similarity.Some? { assert CanonicalPrecedent(x) in ys; }
    Occupied(ys);
  }

  lemma CandidateRows(s: EvaluationSnapshot, config: RuleConfig)
    requires Thresholds(config)
    ensures var (xs, ys) := (Sort(PrecedentKey, s.precedents), SortedPrecedents(CanonicalSnapshot(s)));
      |ys| == |xs| && forall i | 0 <= i < |xs| :: ys[i].proposalId == xs[i].proposalId && CandidateRowSays(xs[i], RowOfCandidate(config)(ys[i]))
  {
    hide Sort, CanonicalSnapshot, CanonicalPrecedent;
    SortedOnce(s);
    var xs := Sort(PrecedentKey, s.precedents);
    forall i | 0 <= i < |xs| ensures CandidateRowSays(xs[i], RowOfCandidate(config)(CanonicalPrecedent(xs[i]))) { KeptFields(xs[i]); }
    forall i | 0 <= i < |xs| ensures CanonicalPrecedent(xs[i]).proposalId == xs[i].proposalId { KeptFields(xs[i]); }
  }

  ghost predicate RetrievalRecord(s: EvaluationSnapshot, ts: seq<TraceStep>) { |ts| == 1 && RetrievalSays(s, ts[0]) }

  lemma RetrievalShown(s: EvaluationSnapshot, config: RuleConfig, ts: seq<TraceStep>)
    requires Thresholds(config) && AllShow(ts, RetrievalPart(CanonicalSnapshot(s), config).steps)
    ensures RetrievalRecord(s, ts)
  {
    hide Sort, CanonicalSnapshot, CanonicalPrecedent, Filter, Gather, Thresholds, SomeUnresolved, AllUnresolved, SomeNear, SomeBlind, SomeSeen,
      CandidateRowSays, SortedPrecedents, RowOfCandidate, WithoutSimilarity;
    NoRefs();
    NearnessFlags(s, config);
    CandidateRows(s, config);
    SortedOnce(s);
    BlindSorted(s.precedents);
    SameProposal(s);
  }

  /** F04 records every candidate, how near it is, and the counts and flags over them. */
  lemma RetrievalRecorded(normalize: Normalizer, s: EvaluationSnapshot, config: RuleConfig)
    requires Evaluation(normalize, s, config).Finalized?
    ensures RetrievalRecord(s, RuleSteps(normalize, s, config, 3))
  {
    hide Evaluation, CanonicalSnapshot, Parts, RetrievalPart, RetrievalRecord, RuleSteps, AllShow, Thresholds, DuplicateCapability, PriorId;
    RuleShown(normalize, s, config, 3);
    PartSteps(CanonicalSnapshot(s), config);
    RetrievalShown(s, config, RuleSteps(normalize, s, config, 3));
  }

  // ----- F05

  ghost predicate SomeGoverns(s: EvaluationSnapshot) { exists x :: Governs(s, x) }

  predicate IdentityRowSays(p: Proposal, x: PrecedentRef, r: IdentityRow) {
    && r.proposalId == x.proposalId && r.evaluationId == x.evaluationId
    && (r.same <==> x.actionTypeKey == p.actionTypeKey && x.targetKey == p.targetKey)
  }

  ghost predicate IdentitySays(s: EvaluationSnapshot, t: TraceStep) {
    var xs := NearSorted(s);
    && t.OperatorStep? && t.subjectRef == s.proposal.proposalId && t.evidenceRefs == [] && t.fact.Identity?
    && t.pole == (if SomeGoverns(s) then SAME else NOT_SAME) && (t.fact.someQualifying <==> SomeGoverns(s))
    && |t.objectRefs| == |t.fact.identityRows| == |xs|
    && (forall i | 0 <= i < |xs| :: t.objectRefs[i] == xs[i].proposalId)
    && forall i | 0 <= i < |xs| :: IdentityRowSays(s.proposal, xs[i], t.fact.identityRows[i])
  }

  ghost predicate IdentityRecord(s: EvaluationSnapshot, ts: seq<TraceStep>) {
    |ts| == (if SomeNear(s) then 1 else 0) && forall t | t in ts :: IdentitySays(s, t)
  }

  lemma IdentityRows(p: Proposal, q: Proposal, xs: seq<PrecedentRef>)
    requires q.actionTypeKey == p.actionTypeKey && q.targetKey == p.targetKey
    ensures var ys := Each(CanonicalPrecedent, xs);
      forall i | 0 <= i < |xs| :: ys[i].proposalId == xs[i].proposalId && IdentityRowSays(p, xs[i], RowOfIdentity(q)(ys[i]))
  {
    hide CanonicalPrecedent;
    forall i | 0 <= i < |xs|
      ensures CanonicalPrecedent(xs[i]).proposalId == xs[i].proposalId && IdentityRowSays(p, xs[i], RowOfIdentity(q)(CanonicalPrecedent(xs[i])))
    {
      KeptFields(xs[i]);
      assert IsSame(q)(CanonicalPrecedent(xs[i])) <==> xs[i].actionTypeKey == p.actionTypeKey && xs[i].targetKey == p.targetKey;
    }
  }

  lemma IdentityShown(s: EvaluationSnapshot, config: RuleConfig, ts: seq<TraceStep>)
    requires var c := CanonicalSnapshot(s); Thresholds(config) && AllShow(ts, IdentityFindings(c.proposal, NearOnes(c, config)).steps)
    ensures IdentityRecord(s, ts)
  {
    hide Sort, CanonicalSnapshot, CanonicalPrecedent, Filter, Thresholds, IdentityRowSays, RowOfIdentity, NearSorted, Governs, NearOnes;
    var c := CanonicalSnapshot(s);
    NoRefs();
    SortedLists(s, config);
    SortedMembers(s);
    Occupied(NearSorted(s));
    Occupied(SameSorted(s));
    SameProposal(s);
    IdentityRows(s.proposal, c.proposal, NearSorted(s));
    assert Filter(IsSame(c.proposal), NearOnes(c, config)) == Qualifying(c, config);
  }

  /** F05 records every near precedent and whether it is of exactly this action on this target. */
  lemma IdentityRecorded(normalize: Normalizer, s: EvaluationSnapshot, config: RuleConfig)
    requires Evaluation(normalize, s, config).Finalized?
    ensures IdentityRecord(s, RuleSteps(normalize, s, config, 4))
  {
    hide Evaluation, CanonicalSnapshot, Parts, IdentityFindings, IdentityRecord, RuleSteps, AllShow, Thresholds, DuplicateCapability, PriorId;
    RuleShown(normalize, s, config, 4);
    PartSteps(CanonicalSnapshot(s), config);
    IdentityShown(s, config, RuleSteps(normalize, s, config, 4));
  }

  // ----- F06

  ghost predicate SomeDecided(s: EvaluationSnapshot, d: DecisionValue) { exists x :: GovernsAs(s, x, d) }
  ghost predicate SomeUndecided(s: EvaluationSnapshot) { exists x :: Governs(s, x) && x.decision.None? }

  ghost predicate InConflict(s: EvaluationSnapshot) {
    SomeDecided(s, Approve) && (SomeDecided(s, Reject) || SomeDecided(s, Modify))
  }

  predicate DecisionRowSays(x: PrecedentRef, r: DecisionRow) {
    r.proposalId == x.proposalId && r.evaluationId == x.evaluationId && r.decision == x.decision && r.decisionId == x.decisionId
  }

  ghost predicate ConflictSays(s: EvaluationSnapshot, t: TraceStep) {
    var xs := SameSorted(s);
    && t.OperatorStep? && t.subjectRef == s.proposal.proposalId && t.evidenceRefs == [] && t.fact.Conflict?
    && (t.fact.approved <==> SomeDecided(s, Approve)) && (t.fact.rejected <==> SomeDecided(s, Reject))
    && (t.fact.modified <==> SomeDecided(s, Modify)) && (t.fact.undecided <==> SomeUndecided(s))
    && (t.fact.conflict <==> InConflict(s)) && t.pole == (if InConflict(s) then ALONE else TOGETHER)
    && |t.objectRefs| == |t.fact.decisionRows| == |xs|
    && (forall i | 0 <= i < |xs| :: t.objectRefs[i] == xs[i].evaluationId)
    && forall i | 0 <= i < |xs| :: DecisionRowSays(xs[i], t.fact.decisionRows[i])
  }

  ghost predicate ConflictRecord(s: EvaluationSnapshot, ts: seq<TraceStep>) {
    |ts| == (if SomeGoverns(s) then 1 else 0) && forall t | t in ts :: ConflictSays(s, t)
  }

  lemma DecisionsSorted(s: EvaluationSnapshot)
    ensures var ds := Each(DecisionOf, Each(CanonicalPrecedent, SameSorted(s)));
      && (forall d :: Some(d) in ds <==> SomeDecided(s, d)) && (None in ds <==> SomeUndecided(s))
  {
    hide CanonicalPrecedent, SameSorted, Governs;
    SortedMembers(s);
    var xs := SameSorted(s);
    var ds := Each(DecisionOf, Each(CanonicalPrecedent, xs));
    forall i | 0 <= i < |xs| ensures ds[i] == xs[i].decision { KeptFields(xs[i]); }
    forall o: Option<DecisionValue> ensures o in ds <==> exists x :: x in xs && x.decision == o {
      if o in ds {
        var i :| 0 <= i < |ds| && ds[i] == o;
        assert xs[i] in xs;
      }
    }
    forall d ensures Some(d) in ds <==> SomeDecided(s, d) {
      if x :| x in xs && x.decision == Some(d) { assert GovernsAs(s, x, d); }
      if x :| GovernsAs(s, x, d) { assert x in xs && x.decision == Some(d); }
    }
    if x :| x in xs && x.decision == None { assert Governs(s, x); }
    if x :| Governs(s, x) && x.decision.None? { assert x in xs && x.decision == None; }
  }

  lemma DecisionRows(xs: seq<PrecedentRef>)
    ensures var ys := Each(CanonicalPrecedent, xs);
      forall i | 0 <= i < |xs| :: ys[i].evaluationId == xs[i].evaluationId && DecisionRowSays(xs[i], RowOfDecision(ys[i]))
  {
    hide CanonicalPrecedent;
    forall i | 0 <= i < |xs|
      ensures CanonicalPrecedent(xs[i]).evaluationId == xs[i].evaluationId && DecisionRowSays(xs[i], RowOfDecision(CanonicalPrecedent(xs[i])))
    {
      KeptFields(xs[i]);
    }
  }

  lemma ConflictShown(s: EvaluationSnapshot, config: RuleConfig, ts: seq<TraceStep>)
    requires Thresholds(config) && AllShow(ts, ConflictPart(CanonicalSnapshot(s), config).steps)
    ensures ConflictRecord(s, ts)
  {
    hide Sort, CanonicalSnapshot, CanonicalPrecedent, Thresholds, DecisionRowSays, RowOfDecision, SameSorted, Governs, Qualifying, ConflictGap,
      SomeDecided, SomeUndecided;
    NoRefs();
    SortedLists(s, config);
    SortedMembers(s);
    Occupied(SameSorted(s));
    SameProposal(s);
    DecisionsSorted(s);
    DecisionRows(SameSorted(s));
  }

  /** F06 records how the governing precedents were decided and whether the decisions conflict. */
  lemma ConflictRecorded(normalize: Normalizer, s: EvaluationSnapshot, config: RuleConfig)
    requires Evaluation(normalize, s, config).Finalized?
    ensures ConflictRecord(s, RuleSteps(normalize, s, config, 5))
  {
    hide Evaluation, CanonicalSnapshot, Parts, ConflictPart, ConflictRecord, RuleSteps, AllShow, Thresholds, DuplicateCapability, PriorId;
    RuleShown(normalize, s, config, 5);
    PartSteps(CanonicalSnapshot(s), config);
    ConflictShown(s, config, RuleSteps(normalize, s, config, 5));
  }
}
