/** What a finalized answer records as triggered, which questions it asks and which steps decide
    it, told from the snapshot as it was given. */
module GateQuestions {
  import opened Canonical
  import opened Gate
  import opened GateChanges
  import opened GateFields
  import opened GateLaterRecords
  import opened GateProperties
  import opened GateRecords
  import opened GateRules
  import opened GateSteps
  import opened GateTrace
  import opened GateTriggers
  import opened GateVerdict
  import opened Json
  import opened Models
  import opened Ordering
  import opened Sequences
  import opened Traces

  // ----- F11

  ghost predicate SomeTrigger(s: EvaluationSnapshot) { exists q :: Triggers(s, q) }

  /** The aggregate records exactly the predicates that the snapshot triggers. */
  ghost predicate AggregateSays(s: EvaluationSnapshot, t: TraceStep) {
    && t.OperatorStep? && t.subjectRef == s.proposal.proposalId && t.objectRefs == [] && t.evidenceRefs == [] && t.fact.Aggregate?
    && t.pole == (if SomeTrigger(s) then SOME else EVERY)
    && forall q :: q in t.fact.triggered <==> Triggers(s, q)
  }

  ghost predicate AggregateRecord(s: EvaluationSnapshot, ts: seq<TraceStep>) { |ts| == 1 && AggregateSays(s, ts[0]) }

  lemma AggregateShown(s: EvaluationSnapshot, p: Proposal, f: Findings, ts: seq<TraceStep>)
    requires p.proposalId == s.proposal.proposalId && forall q :: q in Triggered(f) <==> Triggers(s, q)
    requires AllShow(ts, AggregateFindings(p, f).steps)
    ensures AggregateRecord(s, ts)
  {
    hide Sort, Triggered, Triggers;
    NoRefs();
    if SomeTrigger(s) {
      var q :| Triggers(s, q);
      assert q in Triggered(f);
    } else {
      assert forall q :: q !in Triggered(f);
    }
  }

  ghost function AggregateSteps(normalize: Normalizer, s: EvaluationSnapshot, config: RuleConfig): seq<TraceStep> {
    var o := Evaluation(normalize, s, config);
    if o.Finalized? then StepsOf(o.result.trace, F11) else []
  }

  lemma LastPart(c: EvaluationSnapshot, config: RuleConfig)
    ensures Parts(c, config, PriorId(c))[10] == Part(F11, AggregateFindings(c.proposal, FactFindings(c, config, PriorId(c))).steps)
  {
    hide BindFindings, ScopeFindings, ExclusionFindings, RetrievalFindings, IdentityFindings, ConflictFindings, EvidenceFindings,
      ConsequenceFindings, CapabilityFindings, DependencyFindings, AggregateFindings, FactFindings;
  }

  /** F11 records exactly the predicates the snapshot gives cause for. */
  lemma AggregateRecorded(normalize: Normalizer, s: EvaluationSnapshot, config: RuleConfig)
    requires Evaluation(normalize, s, config).Finalized?
    ensures AggregateRecord(s, AggregateSteps(normalize, s, config))
  {
    hide Evaluation, CanonicalSnapshot, Parts, AggregateFindings, FactFindings, AggregateRecord, StepsOf, AllShow, Thresholds, DuplicateCapability,
      PriorId, Triggered, Triggers;
    var c := CanonicalSnapshot(s);
    FinishedPart(normalize, s, config, 10);
    LastPart(c, config);
    AllListed(s, config);
    SameProposal(s);
    AggregateShown(s, c.proposal, FactFindings(c, config, PriorId(c)), AggregateSteps(normalize, s, config));
  }

  // ----- the questions

  predicate Worded(g: EvidenceGap, axis: Witness, question: string, expected: string, rule: RuleName) {
    g.axis == axis && g.question == question && g.needed == expected && g.resolutionRule == rule
  }

  predicate AuthorityWords(g: EvidenceGap) {
    Worded(g, Whence, "Whence comes the policy authority for this action?",
           "an applicable digest-bound policy rule", F02)
  }

  predicate BoundaryWords(g: EvidenceGap) {
    Worded(g, Where, "Where is this target inside the allowed boundary?",
           "an exact or wildcard target scope", F02)
  }

  predicate SimilarityWords(g: EvidenceGap) {
    Worded(g, Which, "Which exact similarity can be recomputed?",
           "a fixed-scale cosine similarity for this candidate", F04)
  }

  predicate ApprovalWords(g: EvidenceGap) {
    Worded(g, Which, "Which exact approved action-type-and-target precedent qualifies?",
           "one NEAR and exact SAME approved precedent with required consequence", F05)
  }

  predicate ReconciliationWords(g: EvidenceGap) {
    Worded(g, Which, "Which conflicting precedent decisions should govern?",
           "human reconciliation of qualifying precedent decisions", F06)
  }

  predicate DivergenceWords(g: EvidenceGap) {
    Worded(g, What, "What accepted outcome or mitigation resolves the observed divergence?",
           "reviewed actual outcome or a new bounded proposal", F08)
  }

  predicate ObservationWords(g: EvidenceGap) {
    Worded(g, When, "When was the approved effect observed?",
           "a fresh OBSERVED receipt-bound consequence report", F08)
  }

  predicate OutcomeWords(g: EvidenceGap) {
    Worded(g, What, "What actual outcome followed the approved effect?",
           "canonical actual outcome bound to that OBSERVED receipt", F08)
  }

  predicate AvailabilityWords(g: EvidenceGap) {
    Worded(g, Which, "Which exact required capability is available?",
           "a bound capability identity and snapshot", F09)
  }

  predicate ValidationWords(g: EvidenceGap) {
    Worded(g, How, "How was the required capability validated?",
           "fresh capability proof", F09)
  }

  predicate ResolutionWords(g: EvidenceGap) {
    Worded(g, How, "How can this capability be resolved?",
           "fresh bound capability proof", F09)
  }

  predicate StateWords(g: EvidenceGap) { Worded(g, Which, "Which exact dependency state applies?", "a fresh dependency fact", F10) }

  predicate ProofWords(g: EvidenceGap) {
    Worded(g, How, "How can the dependency predicate be validated?",
           "bound dependency evidence", F10)
  }

  lemma PolicyWords(g: EvidenceGap, id: string)
    ensures g == PolicyGap(id) <==> g.subjectRef == id && AuthorityWords(g)
    ensures g == TargetGap(id) <==> g.subjectRef == id && BoundaryWords(g)
  {}

  lemma PrecedentWords(g: EvidenceGap, id: string)
    ensures g == SimilarityGap(id) <==> g.subjectRef == id && SimilarityWords(g)
    ensures g == ApprovalGap(id) <==> g.subjectRef == id && ApprovalWords(g)
    ensures g == ConflictGap(id) <==> g.subjectRef == id && ReconciliationWords(g)
  {}

  lemma ConsequenceWords(g: EvidenceGap, id: string)
    ensures g == DivergenceGap(id) <==> g.subjectRef == id && DivergenceWords(g)
    ensures g == ObservationGap(id) <==> g.subjectRef == id && ObservationWords(g)
    ensures g == OutcomeGap(id) <==> g.subjectRef == id && OutcomeWords(g)
  {}

  lemma CapabilityWords(g: EvidenceGap, id: string)
    ensures g == CapabilityIdentityGap(id) <==> g.subjectRef == id && AvailabilityWords(g)
    ensures g == CapabilityProofGap(id) <==> g.subjectRef == id && ValidationWords(g)
    ensures g == CapabilityStateGap(id) <==> g.subjectRef == id && ResolutionWords(g)
  {}

  lemma DependencyWords(g: EvidenceGap, id: string)
    ensures g == DependencyStateGap(id) <==> g.subjectRef == id && StateWords(g)
    ensures g == DependencyProofGap(id) <==> g.subjectRef == id && ProofWords(g)
  {}

  ghost predicate PolicyQuestion(s: EvaluationSnapshot, g: EvidenceGap) {
    NoRule(s) && g.subjectRef == s.proposal.proposalId && (AuthorityWords(g) || BoundaryWords(g))
  }

  ghost predicate PrecedentQuestion(s: EvaluationSnapshot, g: EvidenceGap) {
    || (BlindId(s, g.subjectRef) && SimilarityWords(g))
    || (!SomeDecided(s, Approve) && g.subjectRef == s.proposal.proposalId && ApprovalWords(g))
    || (InConflict(s) && g.subjectRef == s.proposal.proposalId && ReconciliationWords(g))
  }

  ghost predicate EvidenceQuestion(s: EvaluationSnapshot, g: EvidenceGap) {
    exists q :: Demands(s, q) && !Evidenced(s, q) && g.subjectRef == q.subjectRef
      && Worded(g, q.axis, "What resolves evidence requirement " + q.requirementId + "?", "valid evidence of kind " + q.kind, q.resolutionRule)
  }

  ghost predicate ConsequenceQuestion(s: EvaluationSnapshot, g: EvidenceGap) {
    || (HighId(s, g.subjectRef) && DivergenceWords(g))
    || (ConsequencesAsked(s) && Unobserved(s, g.subjectRef) && (ObservationWords(g) || OutcomeWords(g)))
  }

  ghost predicate CapabilityQuestion(s: EvaluationSnapshot, g: EvidenceGap) {
    Needs(s, g.subjectRef) && CapabilityAsks(s, g.subjectRef, g)
  }

  ghost predicate CapabilityAsks(s: EvaluationSnapshot, id: string, g: EvidenceGap) {
    (Undeclared(s, id) && (AvailabilityWords(g) || ValidationWords(g))) || (Declares(s, id, StateUnresolved) && ResolutionWords(g))
  }

  ghost predicate DependencyQuestion(s: EvaluationSnapshot, g: EvidenceGap) {
    OpenId(s, g.subjectRef, false) && (StateWords(g) || ProofWords(g))
  }

  /** The snapshot gives cause for the question. */
  ghost predicate Questions(s: EvaluationSnapshot, g: EvidenceGap) {
    || PolicyQuestion(s, g) || PrecedentQuestion(s, g) || EvidenceQuestion(s, g)
    || ConsequenceQuestion(s, g) || CapabilityQuestion(s, g) || DependencyQuestion(s, g)
  }

  // ----- rule by rule

  lemma PolicyAsked(s: EvaluationSnapshot, g: EvidenceGap)
    ensures g in PolicyPart(CanonicalSnapshot(s)).gaps <==> PolicyQuestion(s, g)
  {
    hide CanonicalSnapshot, AllowRules, DenyRules, Applicable, Each, SomeGrant, SomeProhibition, PolicyGap, TargetGap, AuthorityWords, BoundaryWords;
    PolicySides(s);
    SameProposal(s);
    PolicyWords(g, s.proposal.proposalId);
  }

  lemma BlindAsked(s: EvaluationSnapshot, config: RuleConfig, g: EvidenceGap)
    ensures g in RetrievalPart(CanonicalSnapshot(s), config).gaps <==> BlindId(s, g.subjectRef) && SimilarityWords(g)
  {
    hide CanonicalSnapshot, Sort, Gather, RetrievalStep, BlindId, SimilarityGap, SimilarityWords;
    var c := CanonicalSnapshot(s);
    SortMembers(PrecedentKey, c.precedents);
    GatherMembers(SimilarityGaps, SortedPrecedents(c));
    BlindGiven(s, g.subjectRef);
    forall id { PrecedentWords(g, id); }
  }

  lemma ApprovalAsked(s: EvaluationSnapshot, config: RuleConfig, g: EvidenceGap)
    requires Thresholds(config)
    ensures g in ApprovalPart(CanonicalSnapshot(s), config).gaps <==>
      !SomeDecided(s, Approve) && g.subjectRef == s.proposal.proposalId && ApprovalWords(g)
  {
    hide CanonicalSnapshot, Approved, GovernsAs, ApprovalGap, ApprovalWords;
    PrecedentMembers(CanonicalSnapshot(s), config);
    Occupied(Approved(CanonicalSnapshot(s), config));
    SameDecided(s, Approve);
    SameProposal(s);
    PrecedentWords(g, s.proposal.proposalId);
  }

  lemma ConflictAsked(s: EvaluationSnapshot, config: RuleConfig, g: EvidenceGap)
    requires Thresholds(config)
    ensures g in ConflictPart(CanonicalSnapshot(s), config).gaps <==>
      InConflict(s) && g.subjectRef == s.proposal.proposalId && ReconciliationWords(g)
  {
    hide CanonicalSnapshot, Qualifying, GovernsAs, ConflictGap, ReconciliationWords;
    var c := CanonicalSnapshot(s);
    SameProposal(s);
    PrecedentWords(g, s.proposal.proposalId);
    forall d: DecisionValue ensures Some(d) in Each(DecisionOf, Qualifying(c, config)) <==> SomeDecided(s, d) {
      DecisionMembers(c, config, d);
      SameDecided(s, d);
    }
  }

  lemma EvidenceAsked(s: EvaluationSnapshot, g: EvidenceGap)
    ensures g in EvidencePart(CanonicalSnapshot(s)).gaps <==> EvidenceQuestion(s, g)
  {
    hide CanonicalSnapshot, Sort, Gather, Requirements, RequirementPredicates, BoundRef, Demands, AllSatisfied, Satisfied, Evidenced;
    var refs, qs := Sort(RefKey, s.proposal.evidenceRefs), Requirements(CanonicalSnapshot(s));
    SameRefs(s);
    SameDemands(s);
    GatherMembers(RequirementGaps(refs), qs);
    forall q ensures Satisfied(refs, q) <==> Evidenced(s, q) { RequirementTold(s, q); }
    if EvidenceQuestion(s, g) {
      var q :| Demands(s, q) && !Evidenced(s, q) && g == RequirementGap(q);
      assert q in qs && g in RequirementGaps(refs)(q);
    }
  }

  lemma DivergencesAsked(config: RuleConfig, given: seq<Report>, g: EvidenceGap)
    ensures g in Gather(DivergenceGaps(config), given) <==> HighAmong(config, given, g.subjectRef) && DivergenceWords(g)
  {
    hide Gather, IsMore, DivergenceGap, DivergenceWords;
    GatherMembers(DivergenceGaps(config), given);
    forall id ensures g == DivergenceGap(id) <==> g.subjectRef == id && DivergenceWords(g) { ConsequenceWords(g, id); }
    if HighAmong(config, given, g.subjectRef) && DivergenceWords(g) {
      var r :| r in given && IsMore(config, r) && r.1.consequenceId == g.subjectRef;
      assert g in DivergenceGaps(config)(r);
    }
  }

  lemma MissingAsked(missing: seq<string>, g: EvidenceGap)
    ensures g in Gather(MissingGaps, missing) <==> g.subjectRef in missing && (ObservationWords(g) || OutcomeWords(g))
  {
    hide Gather, ObservationGap, OutcomeGap, ObservationWords, OutcomeWords;
    GatherMembers(MissingGaps, missing);
    forall id
      ensures g == ObservationGap(id) <==> g.subjectRef == id && ObservationWords(g)
      ensures g == OutcomeGap(id) <==> g.subjectRef == id && OutcomeWords(g)
    {
      ConsequenceWords(g, id);
    }
    if g.subjectRef in missing && (ObservationWords(g) || OutcomeWords(g)) { assert g in MissingGaps(g.subjectRef); }
  }

  lemma ConsequencesQuestioned(s: EvaluationSnapshot, config: RuleConfig, g: EvidenceGap)
    requires Thresholds(config)
    ensures g in ConsequencePart(CanonicalSnapshot(s), config).gaps <==> ConsequenceQuestion(s, g)
  {
    hide CanonicalSnapshot, Gather, Approved, Reports, MissingIds, ConsequenceRequired, AllowRules, HighId, Unobserved, ConsequencesAsked, HighAmong,
      DivergencePredicates, MissingPredicates, ConsequenceStep, Thresholds, DivergenceGaps, MissingGaps, DivergenceWords, ObservationWords,
      OutcomeWords;
    var c := CanonicalSnapshot(s);
    var given, missing := Reports(Approved(c, config)), MissingIds(Approved(c, config));
    MissingGiven(s, config);
    AskedGiven(s, config);
    NothingApproved(config);
    DivergencesAsked(config, given, g);
    MissingAsked(missing, g);
    HighListed(s, config, g.subjectRef);
  }

  lemma CapabilityGapsOf(s: EvaluationSnapshot, id: string, g: EvidenceGap)
    requires !DuplicateCapability(CanonicalSnapshot(s).capabilities)
    ensures g in CapabilityGaps(CanonicalSnapshot(s).capabilities)(id) <==> g.subjectRef == id && CapabilityAsks(s, id, g)
  {
    hide CanonicalSnapshot, Declares, Undeclared, StateOf, DuplicateCapability, RowOfCapability, CapabilityRowSays, AvailabilityWords,
      ValidationWords, ResolutionWords, CapabilityIdentityGap, CapabilityProofGap, CapabilityStateGap;
    StateGiven(s, id);
    CapabilityWords(g, id);
  }

  lemma CapabilitiesAsked(s: EvaluationSnapshot, g: EvidenceGap)
    requires !DuplicateCapability(CanonicalSnapshot(s).capabilities)
    ensures g in CapabilityPart(CanonicalSnapshot(s)).gaps <==> CapabilityQuestion(s, g)
  {
    hide CanonicalSnapshot, Gather, Needs, RequiredCapabilities, AllowRules, DuplicateCapability, SomeInState, CapabilityAsks, CapabilityEvidence,
      CapabilityGaps, RowOfCapability, FalseCapability, OpenCapability, Increasing;
    var facts, ids := CanonicalSnapshot(s).capabilities, RequiredCapabilities(AllowRules(CanonicalSnapshot(s)));
    NeedsGiven(s);
    GatherMembers(CapabilityGaps(facts), ids);
    forall id ensures g in CapabilityGaps(facts)(id) ==> g.subjectRef == id { CapabilityGapsOf(s, id, g); }
    CapabilityGapsOf(s, g.subjectRef, g);
  }

  lemma DependencyGapsOf(d: DependencyRef, g: EvidenceGap)
    ensures g in DependencyGaps(d) <==>
      d.state == StateUnresolved && !(d.necessaryForYes && d.sufficientIfTrue) && g.subjectRef == d.dependencyId && (StateWords(g) || ProofWords(g))
  {
    hide DependencyStateGap, DependencyProofGap, StateWords, ProofWords;
    DependencyWords(g, d.dependencyId);
  }

  lemma DependenciesAsked(s: EvaluationSnapshot, g: EvidenceGap)
    ensures g in DependencyPart(CanonicalSnapshot(s)).gaps <==> DependencyQuestion(s, g)
  {
    hide CanonicalSnapshot, Sort, Gather, FormulaSteps, FalseDependency, OpenDependency, ConditionalDependency, SortedDependencies, DependencyGaps,
      StateWords, ProofWords;
    var ds := SortedDependencies(CanonicalSnapshot(s));
    DependenciesGiven(s);
    GatherMembers(DependencyGaps, ds);
    forall d { DependencyGapsOf(d, g); }
  }

  // ----- all questions

  ghost predicate Asked(s: EvaluationSnapshot, r: CheckResult) {
    forall g :: g in r.gaps <==> r.verdict == MAYBE && Questions(s, g)
  }

  lemma GapsAsked(s: EvaluationSnapshot, config: RuleConfig, g: EvidenceGap)
    requires Thresholds(config) && !DuplicateCapability(CanonicalSnapshot(s).capabilities)
    ensures var c := CanonicalSnapshot(s); g in FactFindings(c, config, PriorId(c)).gaps <==> Questions(s, g)
  {
    hide CanonicalSnapshot, FactFindings, PolicyPart, ExclusionPart, RetrievalPart, ApprovalPart, ConflictPart, EvidencePart, ConsequencePart,
      CapabilityPart, DependencyPart, Thresholds, DuplicateCapability, PriorId, PolicyQuestion, EvidenceQuestion, BlindId,
      SomeDecided, InConflict, SimilarityWords, ApprovalWords, ReconciliationWords, ConsequenceQuestion, CapabilityQuestion, DependencyQuestion;
    var c := CanonicalSnapshot(s);
    PolicyAsked(s, g);
    BlindAsked(s, config, g);
    ApprovalAsked(s, config, g);
    ConflictAsked(s, config, g);
    EvidenceAsked(s, g);
    ConsequencesQuestioned(s, config, g);
    CapabilitiesAsked(s, g);
    DependenciesAsked(s, g);
    ListParts(c, config, PriorId(c));
  }

  /** The gaps of a MAYBE are exactly the questions the snapshot gives cause for, word by word;
      other answers have none. */
  lemma QuestionsExactly(normalize: Normalizer, s: EvaluationSnapshot, config: RuleConfig)
    requires Evaluation(normalize, s, config).Finalized?
    ensures Asked(s, Evaluation(normalize, s, config).result)
  {
    hide Evaluation, FinishedAs, CanonicalSnapshot, InputStop, AllFindings, FactFindings, Questions, Thresholds, DuplicateCapability, PriorId;
    var c, f, red := Finished(normalize, s, config);
    var r := Evaluation(normalize, s, config).result;
    FinishedFindings(c, config, f, red, r);
    FinishedConfig(c, config, f, red, r);
    VerdictByLists(c, config, f, red, r);
    GapsOfAll(c, config);
    forall g ensures g in r.gaps <==> r.verdict == MAYBE && Questions(s, g) { GapsAsked(s, config, g); }
  }

  lemma GapsOfAll(c: EvaluationSnapshot, config: RuleConfig)
    ensures AllFindings(c, config, PriorId(c)).gaps == FactFindings(c, config, PriorId(c)).gaps
  {
    hide FactFindings;
    AggregateAddsNothing(c.proposal, FactFindings(c, config, PriorId(c)));
  }

  // ----- the steps that decide

  ghost predicate RefusedBy(s: EvaluationSnapshot, rule: RuleName) { exists q :: Triggers(s, q) && Refuses(q) && q.Rule() == rule }
  ghost predicate AskedBy(s: EvaluationSnapshot, rule: RuleName) { exists q :: Triggers(s, q) && Asks(q) && q.Rule() == rule }
  ghost predicate ResolvedBy(s: EvaluationSnapshot, rule: RuleName) { exists g :: Questions(s, g) && g.resolutionRule == rule }

  /** A rule decides an answer: F01 and F11 always; for NO the rules that refuse; for MAYBE those
      that ask or would resolve a question; for IFF the formulas; for YES all that were consulted. */
  ghost predicate DecidingRule(s: EvaluationSnapshot, v: Verdict, rule: RuleName) {
    rule == F01 || rule == F11 ||
    match v
    case NO => RefusedBy(s, rule)
    case MAYBE => AskedBy(s, rule) || ResolvedBy(s, rule)
    case IFF => rule == F10
    case YES => rule in {F02, F04, F05, F06, F07, F08} || (rule == F09 && SomeNeed(s)) || (rule == F10 && s.dependencies != [])
  }

  ghost function Deciding(s: EvaluationSnapshot, v: Verdict): TraceStep -> bool { (t: TraceStep) => DecidingRule(s, v, t.rule) }

  function ReducerOf(v: Verdict): RuleName { match v case NO => R1 case MAYBE => R2 case IFF => R3 case YES => R4 }

  /** The last two steps of an answer: the reducer lists the deciding steps in order, and the
      conclusion names the reducer, those steps and the unresolved dependencies. */
  ghost predicate Concluded(s: EvaluationSnapshot, r: CheckResult) {
    var n := |r.trace| - 2;
    && n >= 0 && r.trace[n].ReducerStep? && r.trace[n].rule == ReducerOf(r.verdict)
    && r.trace[n].decisive == Each(StepIdOf, Filter(Deciding(s, r.verdict), r.trace[..n]))
    && r.trace[n].fact == Reduced(r.verdict, r.risk, r.trace[n].decisive)
    && r.trace[n + 1].OperatorStep? && r.trace[n + 1].rule == F12 && r.trace[n + 1].subjectRef == s.proposal.proposalId
    && r.trace[n + 1].objectRefs ==
         [r.trace[n].stepId] + r.trace[n].decisive + Each(DependencyId, Filter(IsUnresolved, Sort(DependencyKey, s.dependencies)))
    && r.trace[n + 1].gapRefs == r.gaps && r.trace[n + 1].fact == Conclusion(r.verdict, r.risk)
    && r.becauseStepId == r.trace[n + 1].stepId
  }

  lemma {:induction false} FilterAlike<T>(p: T -> bool, q: T -> bool, s: seq<T>)
    requires forall x :: p(x) <==> q(x)
    ensures Filter(p, s) == Filter(q, s)
  {
    if s != [] { FilterAlike(p, q, s[..|s| - 1]); }
  }

  lemma RefusedRules(s: EvaluationSnapshot, r1: seq<Predicate>, rule: RuleName)
    requires forall q :: q in r1 <==> Triggers(s, q) && Refuses(q)
    ensures rule in RulesOf(r1) <==> RefusedBy(s, rule)
  {
    hide Triggers, Refuses;
  }

  lemma AskedRules(s: EvaluationSnapshot, r2: seq<Predicate>, rule: RuleName)
    requires forall q :: q in r2 <==> Triggers(s, q) && Asks(q)
    ensures rule in RulesOf(r2) <==> AskedBy(s, rule)
  {
    hide Triggers, Asks;
  }

  lemma ResolvingRules(s: EvaluationSnapshot, gs: seq<EvidenceGap>, rule: RuleName)
    requires forall g :: g in gs <==> Questions(s, g)
    ensures rule in (set g | g in GapSet(gs) :: g.resolutionRule) <==> ResolvedBy(s, rule)
  {
    hide Questions;
  }

  lemma ReducedRefusal(s: EvaluationSnapshot, c: EvaluationSnapshot, config: RuleConfig, f: Findings, red: Reduction, rule: RuleName)
    requires Reduce(c, config, f) == Some(red) && f.r1 != []
    requires forall q :: q in f.r1 <==> Triggers(s, q) && Refuses(q)
    ensures red.rule == ReducerOf(red.verdict) && (rule in red.decisive <==> DecidingRule(s, red.verdict, rule))
  {
    hide Triggers, Questions, Refuses, Asks, SomeNeed, RequiredCapabilities, AllowRules, Approved, AllClear, RefusedBy, AskedBy, ResolvedBy,
      RulesOf, GapSet;
    RefusedRules(s, f.r1, rule);
  }

  lemma ReducedQuestion(s: EvaluationSnapshot, c: EvaluationSnapshot, config: RuleConfig, f: Findings, red: Reduction, rule: RuleName)
    requires Reduce(c, config, f) == Some(red) && f.r1 == [] && f.r2 != []
    requires forall q :: q in f.r2 <==> Triggers(s, q) && Asks(q)
    requires forall g :: g in f.gaps <==> Questions(s, g)
    ensures red.rule == ReducerOf(red.verdict) && (rule in red.decisive <==> DecidingRule(s, red.verdict, rule))
  {
    hide Triggers, Questions, Refuses, Asks, SomeNeed, RequiredCapabilities, AllowRules, Approved, AllClear, RefusedBy, AskedBy, ResolvedBy,
      RulesOf, GapSet;
    AskedRules(s, f.r2, rule);
    ResolvingRules(s, f.gaps, rule);
  }

  lemma ReducedRest(s: EvaluationSnapshot, c: EvaluationSnapshot, config: RuleConfig, f: Findings, red: Reduction, rule: RuleName)
    requires Reduce(c, config, f) == Some(red) && f.r1 == [] && f.r2 == []
    requires RequiredCapabilities(AllowRules(c)) == [] <==> !SomeNeed(s)
    requires c.dependencies == [] <==> s.dependencies == []
    ensures red.rule == ReducerOf(red.verdict) && (rule in red.decisive <==> DecidingRule(s, red.verdict, rule))
  {
    hide SomeNeed, RequiredCapabilities, AllowRules, Approved, Requirements, AllSatisfied, ConsequenceRequired, StateOf, SortedDependencies,
      RefusedBy, AskedBy, ResolvedBy, RulesOf, GapSet;
  }

  lemma ReducedRules(s: EvaluationSnapshot, c: EvaluationSnapshot, config: RuleConfig, f: Findings, red: Reduction, rule: RuleName)
    requires Reduce(c, config, f) == Some(red)
    requires forall q :: q in f.r1 <==> Triggers(s, q) && Refuses(q)
    requires forall q :: q in f.r2 <==> Triggers(s, q) && Asks(q)
    requires forall g :: g in f.gaps <==> Questions(s, g)
    requires RequiredCapabilities(AllowRules(c)) == [] <==> !SomeNeed(s)
    requires c.dependencies == [] <==> s.dependencies == []
    ensures red.rule == ReducerOf(red.verdict) && (rule in red.decisive <==> DecidingRule(s, red.verdict, rule))
  {
    hide Triggers, Questions, Refuses, Asks, SomeNeed, RequiredCapabilities, AllowRules, Reduce, DecidingRule;
    if f.r1 != [] {
      ReducedRefusal(s, c, config, f, red, rule);
    } else if f.r2 != [] {
      ReducedQuestion(s, c, config, f, red, rule);
    } else {
      ReducedRest(s, c, config, f, red, rule);
    }
  }

  lemma ListsGiven(s: EvaluationSnapshot, config: RuleConfig, f: Findings)
    requires var c := CanonicalSnapshot(s);
      Thresholds(config) && !DuplicateCapability(c.capabilities) && f == AllFindings(c, config, PriorId(c))
    ensures forall q :: q in f.r1 <==> Triggers(s, q) && Refuses(q)
    ensures forall q :: q in f.r2 <==> Triggers(s, q) && Asks(q)
    ensures forall g :: g in f.gaps <==> Questions(s, g)
  {
    hide CanonicalSnapshot, FactFindings, AllFindings, Triggers, Questions, Refuses, Asks, Conditions, Thresholds, DuplicateCapability, PriorId,
      Triggered;
    var c := CanonicalSnapshot(s);
    AllListed(s, config);
    TriggeredKinds(c, config, f);
    TriggeredFacts(c, config);
    GapsOfAll(c, config);
    forall g ensures g in f.gaps <==> Questions(s, g) { GapsAsked(s, config, g); }
  }

  lemma TriggeredFacts(c: EvaluationSnapshot, config: RuleConfig)
    ensures Triggered(AllFindings(c, config, PriorId(c))) == Triggered(FactFindings(c, config, PriorId(c)))
  {
    hide FactFindings;
    AggregateAddsNothing(c.proposal, FactFindings(c, config, PriorId(c)));
  }

  lemma AssembledConcluded(s: EvaluationSnapshot, c: EvaluationSnapshot, f: Findings, red: Reduction, r: CheckResult)
    requires |f.steps| + 2 <= TRACE_LIMIT && r.trace == FullTrace(c, f, red) && r.becauseStepId == r.trace[|r.trace| - 1].stepId
    requires r.verdict == red.verdict && r.risk == red.risk && r.gaps == red.gaps && red.rule == ReducerOf(red.verdict)
    requires c.proposal.proposalId == s.proposal.proposalId && SortedDependencies(c) == Sort(DependencyKey, s.dependencies)
    requires forall rule :: rule in red.decisive <==> DecidingRule(s, red.verdict, rule)
    ensures Concluded(s, r)
  {
    hide DecidingRule, Numbered, Sort, Filter, StepId, SortedDependencies;
    var steps := Numbered(c.evaluationId, f.steps);
    assert r.trace[..|r.trace| - 2] == steps;
    FilterAlike(InRules(red.decisive), Deciding(s, r.verdict), steps);
  }

  lemma SameDependencies(s: EvaluationSnapshot)
    ensures SortedDependencies(CanonicalSnapshot(s)) == Sort(DependencyKey, s.dependencies)
    ensures CanonicalSnapshot(s).dependencies == [] <==> s.dependencies == []
  {
    hide Sort, CanonicalRules;
    SortIsIdempotent(DependencyKey, s.dependencies);
    SortMembers(DependencyKey, s.dependencies);
    Occupied(s.dependencies);
    Occupied(Sort(DependencyKey, s.dependencies));
  }

  /** The conclusion of every finalized answer. */
  lemma ConclusionExactly(normalize: Normalizer, s: EvaluationSnapshot, config: RuleConfig)
    requires Evaluation(normalize, s, config).Finalized?
    ensures Concluded(s, Evaluation(normalize, s, config).result)
  {
    hide Evaluation, FinishedAs, CanonicalSnapshot, InputStop, AllFindings, Triggers, Questions, DecidingRule, Thresholds, DuplicateCapability,
      PriorId, Concluded, Reduce, FullTrace, SortedDependencies, Refuses, Asks, RequiredCapabilities, AllowRules, SomeNeed, Increasing;
    var c, f, red := Finished(normalize, s, config);
    var r := Evaluation(normalize, s, config).result;
    FinishedFindings(c, config, f, red, r);
    FinishedConfig(c, config, f, red, r);
    FinishedVerdict(c, config, f, red, r);
    FinishedFields(c, config, f, red, r);
    FinishedReduction(c, config, f, red, r);
    ListsGiven(s, config, f);
    NeedsGiven(s);
    SameDependencies(s);
    SameProposal(s);
    forall rule ensures red.rule == ReducerOf(red.verdict) && (rule in red.decisive <==> DecidingRule(s, red.verdict, rule)) {
      ReducedRules(s, c, config, f, red, rule);
    }
    assert red.rule == ReducerOf(red.verdict) by { ReducedRules(s, c, config, f, red, F01); }
    AssembledConcluded(s, c, f, red, r);
  }
}
