/** What an answer of the gate explains, and how it reacts to changes of its input. */
module GateProperties {
  import opened Canonical
  import opened Changes
  import opened Gate
  import opened GateEvidence
  import opened GateRules
  import opened GateVerdict
  import opened Json
  import opened Models
  import opened Ordering
  import opened Sequences
  import opened Traces

  // ----- the shape of a finished evaluation

  ghost predicate FinishedAs(c: EvaluationSnapshot, config: RuleConfig, f: Findings, red: Reduction, r: CheckResult) {
    && ConfigAccepted(config) && Thresholds(config)
    && FactStop(c, config).None?
    && f == AllFindings(c, config, PriorId(c))
    && Reduce(c, config, f) == Some(red)
    && |f.steps| + 2 <= TRACE_LIMIT
    && c.evaluationId != ""
    && r == Finish(c, config, PriorId(c), f, red)
  }

  lemma Finished(normalize: Normalizer, s: EvaluationSnapshot, config: RuleConfig)
    returns (c: EvaluationSnapshot, f: Findings, red: Reduction)
    requires Evaluation(normalize, s, config).Finalized?
    ensures c == CanonicalSnapshot(s) && InputStop(normalize, c, config).None?
    ensures FinishedAs(c, config, f, red, Evaluation(normalize, s, config).result)
  {
    hide CanonicalSnapshot, InputStop, FactStop, AllFindings, Reduce, Finish, BlockedOf, ConfigAccepted, Thresholds;
    c := CanonicalSnapshot(s);
    f := AllFindings(c, config, PriorId(c));
    red := Reduce(c, config, f).value;
    JudgedConfig(normalize, c, config);
  }

  lemma FinishedFindings(c: EvaluationSnapshot, config: RuleConfig, f: Findings, red: Reduction, r: CheckResult)
    requires FinishedAs(c, config, f, red, r)
    ensures f == AllFindings(c, config, PriorId(c))
  {
    hide ConfigAccepted, Thresholds, FactStop, AllFindings, Reduce, Finish;
  }

  // ----- questions and answers

  /** The gap asks about the subject of the predicate under the predicate's rule; the gap of a
      missing requirement names the requirement. */
  predicate Answers(p: Proposal, q: Predicate, g: EvidenceGap) {
    if q.EvidenceMissing? then g.question == RequirementQuestion(q.id)
    else g.resolutionRule == q.Rule() && g.subjectRef == q.Subject(p.proposalId)
  }

  /** Every predicate has a gap and every gap a predicate. */
  ghost predicate Answered(p: Proposal, qs: seq<Predicate>, gs: seq<EvidenceGap>) {
    && (forall q | q in qs :: exists g :: g in gs && Answers(p, q, g))
    && (forall g | g in gs :: exists q :: q in qs && Answers(p, q, g))
  }

  lemma AnsweredConcat(p: Proposal, a: seq<Predicate>, x: seq<EvidenceGap>, b: seq<Predicate>, y: seq<EvidenceGap>)
    requires Answered(p, a, x) && Answered(p, b, y)
    ensures Answered(p, a + b, x + y)
  {
    hide Answers;
  }

  lemma {:induction false} GatherAnswered<T>(p: Proposal, f: T -> seq<Predicate>, g: T -> seq<EvidenceGap>, s: seq<T>)
    requires forall x :: Answered(p, f(x), g(x))
    ensures Answered(p, Gather(f, s), Gather(g, s))
  {
    hide Answers;
    if s != [] {
      var front, last := s[..|s| - 1], s[|s| - 1];
      GatherAnswered(p, f, g, front);
      AnsweredConcat(p, Gather(f, front), Gather(g, front), f(last), g(last));
    }
  }

  lemma OneAnswer(p: Proposal, q: Predicate, g: EvidenceGap)
    requires Answers(p, q, g)
    ensures Answered(p, [q], [g])
  {
    hide Answers;
    assert q in [q] && g in [g];
  }

  lemma TwoAnswers(p: Proposal, q: Predicate, g: EvidenceGap, h: EvidenceGap)
    requires Answers(p, q, g) && Answers(p, q, h)
    ensures Answered(p, [q], [g, h])
  {
    hide Answers;
    assert q in [q] && g in [g, h] && h in [g, h];
  }

  lemma PolicyAnswered(s: EvaluationSnapshot)
    ensures Answered(s.proposal, PolicyPart(s).r2, PolicyPart(s).gaps)
  {
    hide AllowRules, DenyRules, Each, PolicyGap, TargetGap;
    var p := s.proposal;
    OneAnswer(p, PolicySourceUnresolved, PolicyGap(p.proposalId));
    OneAnswer(p, TargetScopeUnresolved, TargetGap(p.proposalId));
    if DenyRules(s) == [] && AllowRules(s) == [] {
      AnsweredConcat(p, [PolicySourceUnresolved], [PolicyGap(p.proposalId)], [TargetScopeUnresolved], [TargetGap(p.proposalId)]);
    }
  }

  lemma RetrievalAnswered(s: EvaluationSnapshot, c: RuleConfig)
    ensures Answered(s.proposal, RetrievalPart(s, c).r2, RetrievalPart(s, c).gaps)
  {
    hide Gather, Sort, RetrievalStep, SimilarityGap;
    forall x ensures Answered(s.proposal, SimilarityPredicates(x), SimilarityGaps(x)) {
      if x.similarity.None? { OneAnswer(s.proposal, SimilarityUnresolved(x.proposalId), SimilarityGap(x.proposalId)); }
    }
    GatherAnswered(s.proposal, SimilarityPredicates, SimilarityGaps, SortedPrecedents(s));
  }

  lemma PrecedentsAnswered(s: EvaluationSnapshot, c: RuleConfig)
    ensures Answered(s.proposal, ApprovalPart(s, c).r2, ApprovalPart(s, c).gaps)
    ensures Answered(s.proposal, ConflictPart(s, c).r2, ConflictPart(s, c).gaps)
  {
    hide Approved, Qualifying, Conflicting, Each, ApprovalGap, ConflictGap;
    OneAnswer(s.proposal, NoQualifyingApprove, ApprovalGap(s.proposal.proposalId));
    OneAnswer(s.proposal, PrecedentConflict, ConflictGap(s.proposal.proposalId));
  }

  lemma EvidenceAnswered(s: EvaluationSnapshot)
    ensures Answered(s.proposal, EvidencePart(s).r2, EvidencePart(s).gaps)
  {
    hide Gather, Sort, Requirements, Satisfied, Each, RequirementGap, RequirementQuestion;
    var refs := Sort(RefKey, s.proposal.evidenceRefs);
    forall q ensures Answered(s.proposal, RequirementPredicates(refs)(q), RequirementGaps(refs)(q)) {
      if !Satisfied(refs, q) { OneAnswer(s.proposal, EvidenceMissing(q.requirementId), RequirementGap(q)); }
    }
    GatherAnswered(s.proposal, RequirementPredicates(refs), RequirementGaps(refs), Requirements(s));
  }

  lemma ConsequencesAnswered(s: EvaluationSnapshot, c: RuleConfig)
    ensures Answered(s.proposal, ConsequencePart(s, c).r2, ConsequencePart(s, c).gaps)
  {
    hide Gather, Reports, MissingIds, IsMore, Each, Approved, ConsequenceRequired, Answers, DivergenceGap, ObservationGap, OutcomeGap;
    var p := s.proposal;
    var reports, missing := Reports(Approved(s, c)), MissingIds(Approved(s, c));
    forall r ensures Answered(p, DivergencePredicates(c)(r), DivergenceGaps(c)(r)) { DivergenceAnswered(p, c, r); }
    GatherAnswered(p, DivergencePredicates(c), DivergenceGaps(c), reports);
    forall id ensures Answered(p, MissingPredicates(id), MissingGaps(id)) { MissingAnswered(p, id); }
    GatherAnswered(p, MissingPredicates, MissingGaps, missing);
    AnsweredConcat(p, Gather(DivergencePredicates(c), reports), Gather(DivergenceGaps(c), reports),
                   Gather(MissingPredicates, missing), Gather(MissingGaps, missing));
  }

  lemma DivergenceAnswered(p: Proposal, c: RuleConfig, r: Report)
    ensures Answered(p, DivergencePredicates(c)(r), DivergenceGaps(c)(r))
  {
    hide DivergenceGap, IsMore;
    if IsMore(c, r) { OneAnswer(p, HighDivergence(r.1.consequenceId), DivergenceGap(r.1.consequenceId)); }
  }

  lemma MissingAnswered(p: Proposal, id: string)
    ensures Answered(p, MissingPredicates(id), MissingGaps(id))
  {
    hide ObservationGap, OutcomeGap;
    TwoAnswers(p, MissingConsequence(id), ObservationGap(id), OutcomeGap(id));
  }

  lemma CapabilityAnswered(p: Proposal, facts: seq<CapabilityFact>, id: string)
    ensures Answered(p, OpenCapability(facts)(id), CapabilityGaps(facts)(id))
  {
    hide StateOf, CapabilityIdentityGap, CapabilityProofGap, CapabilityStateGap;
    if StateOf(facts, id) == None {
      TwoAnswers(p, CapabilityMissing(id), CapabilityIdentityGap(id), CapabilityProofGap(id));
    } else if StateOf(facts, id) == Some(StateUnresolved) {
      OneAnswer(p, CapabilityUnresolved(id), CapabilityStateGap(id));
    }
  }

  lemma CapabilitiesAnswered(s: EvaluationSnapshot)
    ensures Answered(s.proposal, CapabilityPart(s).r2, CapabilityPart(s).gaps)
  {
    hide Gather, RequiredCapabilities, StateOf, Each, Answers, CapabilityIdentityGap, CapabilityProofGap, CapabilityStateGap;
    var p, facts := s.proposal, s.capabilities;
    forall id ensures Answered(p, OpenCapability(facts)(id), CapabilityGaps(facts)(id)) { CapabilityAnswered(p, facts, id); }
    GatherAnswered(p, OpenCapability(facts), CapabilityGaps(facts), RequiredCapabilities(AllowRules(s)));
  }

  lemma DependenciesAnswered(s: EvaluationSnapshot)
    ensures Answered(s.proposal, DependencyPart(s).r2, DependencyPart(s).gaps)
  {
    hide Gather, Sort, DependencyStateGap, DependencyProofGap, Complete;
    var p := s.proposal;
    forall d ensures Answered(p, OpenDependency(d), DependencyGaps(d)) {
      if d.state == StateUnresolved && !Complete(d) {
        TwoAnswers(p, IncompleteFormula(d.dependencyId), DependencyStateGap(d.dependencyId), DependencyProofGap(d.dependencyId));
      }
    }
    GatherAnswered(p, OpenDependency, DependencyGaps, SortedDependencies(s));
  }

  lemma AllAnswered(s: EvaluationSnapshot, c: RuleConfig, id: Option<string>)
    ensures var f := FactFindings(s, c, id); Answered(s.proposal, f.r2, f.gaps)
  {
    hide Answered, FactFindings, PolicyPart, RetrievalPart, ApprovalPart, ConflictPart, EvidencePart, ConsequencePart, CapabilityPart, DependencyPart;
    var p := s.proposal;
    ListParts(s, c, id);
    PolicyAnswered(s);
    RetrievalAnswered(s, c);
    PrecedentsAnswered(s, c);
    EvidenceAnswered(s);
    ConsequencesAnswered(s, c);
    CapabilitiesAnswered(s);
    DependenciesAnswered(s);
    var q, g := PolicyPart(s).r2, PolicyPart(s).gaps;
    AnsweredConcat(p, q, g, RetrievalPart(s, c).r2, RetrievalPart(s, c).gaps);
    q, g := q + RetrievalPart(s, c).r2, g + RetrievalPart(s, c).gaps;
    AnsweredConcat(p, q, g, ApprovalPart(s, c).r2, ApprovalPart(s, c).gaps);
    q, g := q + ApprovalPart(s, c).r2, g + ApprovalPart(s, c).gaps;
    AnsweredConcat(p, q, g, ConflictPart(s, c).r2, ConflictPart(s, c).gaps);
    q, g := q + ConflictPart(s, c).r2, g + ConflictPart(s, c).gaps;
    AnsweredConcat(p, q, g, EvidencePart(s).r2, EvidencePart(s).gaps);
    q, g := q + EvidencePart(s).r2, g + EvidencePart(s).gaps;
    AnsweredConcat(p, q, g, ConsequencePart(s, c).r2, ConsequencePart(s, c).gaps);
    q, g := q + ConsequencePart(s, c).r2, g + ConsequencePart(s, c).gaps;
    AnsweredConcat(p, q, g, CapabilityPart(s).r2, CapabilityPart(s).gaps);
    q, g := q + CapabilityPart(s).r2, g + CapabilityPart(s).gaps;
    AnsweredConcat(p, q, g, DependencyPart(s).r2, DependencyPart(s).gaps);
  }

  // ----- the kinds of predicates

  predicate Refuses(q: Predicate) { q.HardPolicyOutside? || q.ActiveExclusionSame? || q.CapabilityFalse? || q.DependencyFalse? }
  predicate Conditions(q: Predicate) { q.CompleteFormula? }
  predicate Asks(q: Predicate) { !Refuses(q) && !Conditions(q) }

  /** The three lists hold refusals, questions and conditions, in that order. */
  ghost predicate Sorted3(f: Findings) {
    && (forall q | q in f.r1 :: Refuses(q))
    && (forall q | q in f.r2 :: Asks(q))
    && (forall q | q in f.r3 :: Conditions(q))
  }

  lemma PrecedentKinds(s: EvaluationSnapshot, c: RuleConfig)
    ensures Sorted3(RetrievalPart(s, c)) && Sorted3(ApprovalPart(s, c)) && Sorted3(ConflictPart(s, c))
  {
    hide Gather, Sort, RetrievalStep, Approved, Qualifying, Conflicting, Each, SimilarityGap, ApprovalGap, ConflictGap;
    GatherMembers(SimilarityPredicates, SortedPrecedents(s));
  }

  lemma EvidenceKinds(s: EvaluationSnapshot, c: RuleConfig)
    ensures Sorted3(EvidencePart(s)) && Sorted3(ConsequencePart(s, c))
  {
    hide Gather, Sort, Approved, ConsequenceRequired, Reports, MissingIds, Requirements, Satisfied, IsMore, Each,
      RequirementGap, DivergenceGap, ObservationGap, OutcomeGap;
    GatherMembers(RequirementPredicates(Sort(RefKey, s.proposal.evidenceRefs)), Requirements(s));
    GatherMembers(DivergencePredicates(c), Reports(Approved(s, c)));
    GatherMembers(MissingPredicates, MissingIds(Approved(s, c)));
  }

  lemma PolicyKinds(s: EvaluationSnapshot)
    ensures Sorted3(PolicyPart(s)) && Sorted3(ExclusionPart(s))
  {
    hide Sort, AllowRules, DenyRules, Each, SomeExcludes, PolicyGap, TargetGap;
  }

  lemma CapabilityKinds(s: EvaluationSnapshot)
    ensures Sorted3(CapabilityPart(s))
  {
    hide Gather, AllowRules, RequiredCapabilities, StateOf, Each, SomeInState, CapabilityIdentityGap, CapabilityProofGap, CapabilityStateGap;
    var ids := RequiredCapabilities(AllowRules(s));
    GatherMembers(FalseCapability(s.capabilities), ids);
    GatherMembers(OpenCapability(s.capabilities), ids);
  }

  lemma DependencyKinds(s: EvaluationSnapshot)
    ensures Sorted3(DependencyPart(s))
  {
    hide Gather, Sort, Complete, FormulaStep, DependencyStateGap, DependencyProofGap;
    var ds := SortedDependencies(s);
    GatherMembers(FalseDependency, ds);
    GatherMembers(OpenDependency, ds);
    GatherMembers(ConditionalDependency, ds);
  }

  lemma AllKinds(s: EvaluationSnapshot, c: RuleConfig, id: Option<string>)
    ensures Sorted3(FactFindings(s, c, id))
  {
    hide FactFindings, PolicyPart, ExclusionPart, RetrievalPart, ApprovalPart, ConflictPart, EvidencePart, ConsequencePart,
      CapabilityPart, DependencyPart, Refuses, Asks, Conditions;
    ListParts(s, c, id);
    PolicyKinds(s);
    CapabilityKinds(s);
    DependencyKinds(s);
    PrecedentKinds(s, c);
    EvidenceKinds(s, c);
  }

  // ----- refusals leave a step

  ghost predicate Emitted(f: Findings) {
    forall q | q in f.r1 :: exists d :: d in f.steps && d.rule == q.Rule()
  }

  lemma EmittedThen(f: Findings, g: Findings)
    requires Emitted(f) && Emitted(g)
    ensures Emitted(f.Then(g))
  {}

  lemma EmittedQuietly(f: Findings)
    requires f.r1 == []
    ensures Emitted(f)
  {}

  lemma EmittedRules(s: EvaluationSnapshot)
    ensures Emitted(PolicyPart(s)) && Emitted(ExclusionPart(s))
  {
    hide Sort, AllowRules, DenyRules, Each, SomeExcludes, PolicyGap, TargetGap;
    assert PolicyPart(s).r1 != [] ==> PolicyPart(s).steps[0] in PolicyPart(s).steps;
    assert ExclusionPart(s).r1 != [] ==> ExclusionPart(s).steps[0] in ExclusionPart(s).steps;
  }

  lemma EmittedCapabilities(s: EvaluationSnapshot)
    ensures Emitted(CapabilityPart(s))
  {
    hide Gather, AllowRules, RequiredCapabilities, StateOf, Each, SomeInState;
    var ids := RequiredCapabilities(AllowRules(s));
    GatherMembers(FalseCapability(s.capabilities), ids);
    assert ids != [] ==> CapabilityPart(s).steps[0] in CapabilityPart(s).steps;
  }

  lemma EmittedDependencies(s: EvaluationSnapshot)
    ensures Emitted(DependencyPart(s))
  {
    hide Gather, Sort, Complete, FormulaStep, OpenDependency, ConditionalDependency, DependencyGaps;
    var ds := SortedDependencies(s);
    GatherMembers(FalseDependency, ds);
    GatherMembers(FormulaSteps, ds);
    forall q | q in DependencyPart(s).r1 ensures exists d :: d in DependencyPart(s).steps && d.rule == q.Rule() {
      var d :| d in ds && q in FalseDependency(d);
      assert FormulaStep(d, false) in FormulaSteps(d);
      FormulaRule(d);
    }
  }

  lemma FormulaRule(d: DependencyRef)
    ensures FormulaStep(d, false).rule == F10 && FormulaStep(d, true).rule == F10
  {}

  lemma AllEmitted(s: EvaluationSnapshot, c: RuleConfig, id: Option<string>)
    ensures Emitted(FactFindings(s, c, id))
  {
    hide BindFindings, ScopeFindings, ExclusionFindings, RetrievalFindings, IdentityFindings, ApprovalFindings, ConflictFindings,
      EvidenceFindings, ConsequenceFindings, CapabilityFindings, DependencyFindings, Emitted;
    EmittedRules(s);
    EmittedCapabilities(s);
    EmittedDependencies(s);
    var p := s.proposal;
    var f := BindFindings(s, c, id);
    EmittedQuietly(f);
    EmittedThen(f, PolicyPart(s));
    f := f.Then(PolicyPart(s));
    EmittedThen(f, ExclusionPart(s));
    f := f.Then(ExclusionPart(s));
    EmittedQuietly(RetrievalPart(s, c));
    EmittedThen(f, RetrievalPart(s, c));
    f := f.Then(RetrievalPart(s, c));
    EmittedQuietly(IdentityFindings(p, NearOnes(s, c)));
    EmittedThen(f, IdentityFindings(p, NearOnes(s, c)));
    f := f.Then(IdentityFindings(p, NearOnes(s, c)));
    EmittedQuietly(ApprovalPart(s, c));
    EmittedThen(f, ApprovalPart(s, c));
    f := f.Then(ApprovalPart(s, c));
    EmittedQuietly(ConflictPart(s, c));
    EmittedThen(f, ConflictPart(s, c));
    f := f.Then(ConflictPart(s, c));
    EmittedQuietly(EvidencePart(s));
    EmittedThen(f, EvidencePart(s));
    f := f.Then(EvidencePart(s));
    EmittedQuietly(ConsequencePart(s, c));
    EmittedThen(f, ConsequencePart(s, c));
    f := f.Then(ConsequencePart(s, c));
    EmittedThen(f, CapabilityPart(s));
    f := f.Then(CapabilityPart(s));
    EmittedThen(f, DependencyPart(s));
  }

  // ----- the trace explains the verdict

  /** The predicates that the aggregate step of a finished trace records. */
  ghost predicate Records(r: CheckResult, triggered: set<Predicate>) {
    |r.trace| >= 3 && r.trace[|r.trace| - 3].rule == F11 && r.trace[|r.trace| - 3].fact == Aggregate(triggered)
  }

  ghost predicate Decides(r: CheckResult, q: Predicate) {
    |r.trace| >= 2 && r.trace[|r.trace| - 2].ReducerStep? &&
    exists k :: 0 <= k < |r.trace| - 2 && r.trace[k].rule == q.Rule() && r.trace[k].stepId in r.trace[|r.trace| - 2].decisive
  }

  lemma DecisiveStep(steps: seq<TraceStep>, rules: set<RuleName>, k: nat)
    requires k < |steps| && steps[k].rule in rules
    ensures steps[k].stepId in DecisiveIds(steps, rules)
  {
    FilterMembers(InRules(rules), steps);
    EachMembers(StepIdOf, Filter(InRules(rules), steps));
    assert steps[k] in Filter(InRules(rules), steps);
  }

  lemma RefusalDecides(c: EvaluationSnapshot, config: RuleConfig, f: Findings, red: Reduction, r: CheckResult, q: Predicate)
    requires FinishedAs(c, config, f, red, r) && q in f.r1
    ensures Decides(r, q)
  {
    hide FactFindings, FactStop, Sort, ConfigAccepted, Thresholds, ChangedRules, Warnings, StepId, Filter, Each, DecisiveIds, SortedPrecedents, SortedDependencies, Approved;
    AllEmitted(c, config, PriorId(c));
    var facts := FactFindings(c, config, PriorId(c));
    assert f.r1 == facts.r1;
    var d :| d in facts.steps && d.rule == q.Rule();
    assert d in f.steps;
    var k :| 0 <= k < |f.steps| && f.steps[k] == d;
    var steps := Numbered(c.evaluationId, f.steps);
    assert steps[k].rule == q.Rule();
    assert q.Rule() in red.decisive;
    DecisiveStep(steps, red.decisive, k);
    assert r.trace[k] == steps[k];
  }

  lemma RecordedTriggers(c: EvaluationSnapshot, config: RuleConfig, f: Findings, red: Reduction, r: CheckResult)
    requires FinishedAs(c, config, f, red, r)
    ensures Records(r, Triggered(f))
  {
    hide FactFindings, FactStop, Sort, ConfigAccepted, Thresholds, ChangedRules, Warnings, StepId, Filter, Each, DecisiveIds, SortedPrecedents,
      SortedDependencies, Approved, Reduce;
    var facts := FactFindings(c, config, PriorId(c));
    assert f.steps[|f.steps| - 1] == AggregateFindings(c.proposal, facts).steps[0];
    assert Triggered(f) == Triggered(facts);
  }

  /** The lists are the triggered predicates of their kind. */
  lemma TriggeredKinds(c: EvaluationSnapshot, config: RuleConfig, f: Findings)
    requires f == AllFindings(c, config, PriorId(c))
    ensures forall q :: q in f.r1 <==> q in Triggered(f) && Refuses(q)
    ensures forall q :: q in f.r2 <==> q in Triggered(f) && Asks(q)
    ensures forall q :: q in f.r3 <==> q in Triggered(f) && Conditions(q)
  {
    hide FactFindings;
    AllKinds(c, config, PriorId(c));
    assert f.r1 == FactFindings(c, config, PriorId(c)).r1;
    assert f.r2 == FactFindings(c, config, PriorId(c)).r2;
    assert f.r3 == FactFindings(c, config, PriorId(c)).r3;
  }

  /** The verdict is read off the recorded predicates: a refusal makes NO, otherwise a question
      makes MAYBE, otherwise a condition makes IFF, and nothing at all makes YES. */
  ghost predicate Explained(r: CheckResult, t: set<Predicate>) {
    && (r.verdict == NO <==> exists q :: q in t && Refuses(q))
    && (r.verdict == MAYBE <==> (forall q | q in t :: !Refuses(q)) && exists q :: q in t && Asks(q))
    && (r.verdict == IFF <==> t != {} && forall q | q in t :: Conditions(q))
    && (r.verdict == YES <==> t == {})
  }

  lemma VerdictByLists(c: EvaluationSnapshot, config: RuleConfig, f: Findings, red: Reduction, r: CheckResult)
    requires FinishedAs(c, config, f, red, r)
    ensures r.verdict == if f.r1 != [] then NO else if f.r2 != [] then MAYBE else if f.r3 != [] then IFF else YES
    ensures r.gaps == if r.verdict == MAYBE then GapSet(f.gaps) else {}
    ensures r.risk == if r.verdict == NO || (r.verdict == MAYBE && exists q | q in f.r2 :: q.HighDivergence?) then HIGH
                      else if r.verdict == YES then LOW else MEDIUM
  {
    hide AllFindings, FactStop, ConfigAccepted, Thresholds, AllClear, Finish, RulesOf, Approved, RequiredCapabilities;
    FinishedVerdict(c, config, f, red, r);
  }

  lemma KindsDecide(t: set<Predicate>, r1: seq<Predicate>, r2: seq<Predicate>, r3: seq<Predicate>, r: CheckResult)
    requires forall q :: q in r1 <==> q in t && Refuses(q)
    requires forall q :: q in r2 <==> q in t && Asks(q)
    requires forall q :: q in r3 <==> q in t && Conditions(q)
    requires r.verdict == if r1 != [] then NO else if r2 != [] then MAYBE else if r3 != [] then IFF else YES
    ensures Explained(r, t)
  {
    forall q ensures Refuses(q) ==> !Conditions(q) {}
    hide Refuses, Conditions;
    Occupied(r1);
    Occupied(r2);
    Occupied(r3);
    if t != {} && r1 == [] && r2 == [] {
      var q :| q in t;
      assert q in r3;
    }
  }

  lemma ReductionExplained(c: EvaluationSnapshot, config: RuleConfig, f: Findings, red: Reduction, r: CheckResult)
    requires FinishedAs(c, config, f, red, r)
    ensures Explained(r, Triggered(f))
  {
    hide FinishedAs, AllFindings, Triggered, Refuses, Asks, Conditions, Explained;
    FinishedFindings(c, config, f, red, r);
    VerdictByLists(c, config, f, red, r);
    TriggeredKinds(c, config, f);
    KindsDecide(Triggered(f), f.r1, f.r2, f.r3, r);
  }

  lemma FinishedVerdict(c: EvaluationSnapshot, config: RuleConfig, f: Findings, red: Reduction, r: CheckResult)
    requires FinishedAs(c, config, f, red, r)
    ensures r.verdict == red.verdict && r.risk == red.risk && r.gaps == red.gaps
    ensures |f.steps| + 2 <= TRACE_LIMIT && r.trace == FullTrace(c, f, red)
  {
    hide AllFindings, FactStop, ConfigAccepted, Thresholds, Reduce, FullTrace, ChangedRules, Warnings, ResultDigest;
  }

  /** Gaps are raised exactly for MAYBE and are then exactly the questions of the triggered
      predicates; every refusal has its step among the decisive steps; the risk is high for
      refusals and for observed divergence. */
  ghost predicate Justified(p: Proposal, r: CheckResult, t: set<Predicate>) {
    && Explained(r, t)
    && (r.gaps != {} <==> r.verdict == MAYBE)
    && (r.verdict == MAYBE ==>
          && (forall q | q in t && Asks(q) :: exists g :: g in r.gaps && Answers(p, q, g))
          && (forall g | g in r.gaps :: exists q :: q in t && Asks(q) && Answers(p, q, g)))
    && (forall q | q in t && Refuses(q) :: Decides(r, q))
    && (r.risk == HIGH <==> r.verdict == NO || (r.verdict == MAYBE && exists q :: q in t && q.HighDivergence?))
  }

  lemma FinishedJustified(c: EvaluationSnapshot, config: RuleConfig, f: Findings, red: Reduction, r: CheckResult)
    requires FinishedAs(c, config, f, red, r)
    ensures Justified(c.proposal, r, Triggered(f))
  {
    hide FinishedAs, Explained, Decides, Answers, Refuses, Asks, Triggered;
    ReductionExplained(c, config, f, red, r);
    forall q | q in Triggered(f) && Refuses(q) ensures Decides(r, q) { RefusalStands(c, config, f, red, r, q); }
    GapsExplained(c, config, f, red, r);
    RiskExplained(c, config, f, red, r);
  }

  /** The aggregate step of a finished trace justifies its verdict, risk, gaps and decisive steps. */
  lemma TraceExplains(normalize: Normalizer, s: EvaluationSnapshot, config: RuleConfig) returns (triggered: set<Predicate>)
    requires Evaluation(normalize, s, config).Finalized?
    ensures Records(Evaluation(normalize, s, config).result, triggered)
    ensures Justified(s.proposal, Evaluation(normalize, s, config).result, triggered)
  {
    hide Evaluation, FinishedAs, Records, Triggered, CanonicalSnapshot, InputStop;
    var c, f, red := Finished(normalize, s, config);
    var r := Evaluation(normalize, s, config).result;
    triggered := Triggered(f);
    RecordedTriggers(c, config, f, red, r);
    FinishedJustified(c, config, f, red, r);
    SameJustification(s, c, r, triggered);
  }

  lemma SameJustification(s: EvaluationSnapshot, c: EvaluationSnapshot, r: CheckResult, t: set<Predicate>)
    requires c == CanonicalSnapshot(s) && Justified(c.proposal, r, t)
    ensures Justified(s.proposal, r, t)
  {
    hide Explained, Decides, Answers, Refuses, Asks;
    SameSubject(s, c);
  }

  lemma SameSubject(s: EvaluationSnapshot, c: EvaluationSnapshot)
    requires c == CanonicalSnapshot(s)
    ensures forall q, g :: Answers(c.proposal, q, g) <==> Answers(s.proposal, q, g)
  {
    assert c.proposal.proposalId == s.proposal.proposalId;
  }

  lemma RefusalStands(c: EvaluationSnapshot, config: RuleConfig, f: Findings, red: Reduction, r: CheckResult, q: Predicate)
    requires FinishedAs(c, config, f, red, r) && q in Triggered(f) && Refuses(q)
    ensures Decides(r, q)
  {
    hide AllFindings, FactStop, ConfigAccepted, Thresholds, Reduce, Finish, Decides;
    TriggeredKinds(c, config, f);
    RefusalDecides(c, config, f, red, r, q);
  }

  lemma ListsAnswered(c: EvaluationSnapshot, config: RuleConfig, f: Findings)
    requires f == AllFindings(c, config, PriorId(c))
    ensures Answered(c.proposal, f.r2, f.gaps)
  {
    hide Answered, FactFindings, AggregateFindings;
    AllAnswered(c, config, PriorId(c));
    AggregateAddsNothing(c.proposal, FactFindings(c, config, PriorId(c)));
  }

  lemma AggregateAddsNothing(p: Proposal, f: Findings)
    ensures var g := f.Then(AggregateFindings(p, f)); g.r1 == f.r1 && g.r2 == f.r2 && g.r3 == f.r3 && g.gaps == f.gaps
  {}

  /** For MAYBE the gaps are the answers to the asking predicates; otherwise there are none. */
  lemma AnswersExplain(p: Proposal, t: set<Predicate>, r2: seq<Predicate>, gs: seq<EvidenceGap>, r: CheckResult)
    requires forall q :: q in r2 <==> q in t && Asks(q)
    requires Answered(p, r2, gs) && (r.verdict == MAYBE ==> r2 != [])
    requires r.gaps == if r.verdict == MAYBE then GapSet(gs) else {}
    ensures r.gaps != {} <==> r.verdict == MAYBE
    ensures r.verdict == MAYBE ==>
      && (forall q | q in t && Asks(q) :: exists g :: g in r.gaps && Answers(p, q, g))
      && (forall g | g in r.gaps :: exists q :: q in t && Asks(q) && Answers(p, q, g))
  {
    hide Answers, Asks;
    if r.verdict == MAYBE {
      assert r2[0] in r2;
      var g :| g in gs && Answers(p, r2[0], g);
      assert g in r.gaps;
    }
  }

  lemma RiskExplained(c: EvaluationSnapshot, config: RuleConfig, f: Findings, red: Reduction, r: CheckResult)
    requires FinishedAs(c, config, f, red, r)
    ensures r.risk == HIGH <==> r.verdict == NO || (r.verdict == MAYBE && exists q :: q in Triggered(f) && q.HighDivergence?)
  {
    hide FinishedAs, Triggered, Asks, Refuses, Conditions, AllFindings;
    FinishedFindings(c, config, f, red, r);
    VerdictByLists(c, config, f, red, r);
    TriggeredKinds(c, config, f);
    HighRisk(Triggered(f), f.r2);
  }

  lemma GapsExplained(c: EvaluationSnapshot, config: RuleConfig, f: Findings, red: Reduction, r: CheckResult)
    requires FinishedAs(c, config, f, red, r)
    ensures r.gaps != {} <==> r.verdict == MAYBE
    ensures r.verdict == MAYBE ==>
      && (forall q | q in Triggered(f) && Asks(q) :: exists g :: g in r.gaps && Answers(c.proposal, q, g))
      && (forall g | g in r.gaps :: exists q :: q in Triggered(f) && Asks(q) && Answers(c.proposal, q, g))
  {
    hide FinishedAs, Answers, Triggered, Asks, Refuses, Conditions, AllFindings, Answered, GapSet;
    FinishedFindings(c, config, f, red, r);
    VerdictByLists(c, config, f, red, r);
    TriggeredKinds(c, config, f);
    ListsAnswered(c, config, f);
    AnswersExplain(c.proposal, Triggered(f), f.r2, f.gaps, r);
  }

  lemma HighRisk(t: set<Predicate>, r2: seq<Predicate>)
    requires forall q :: q in r2 <==> q in t && Asks(q)
    ensures (exists q | q in r2 :: q.HighDivergence?) <==> exists q :: q in t && q.HighDivergence?
  {
    HighIsAsked();
    hide Asks;
  }

  lemma HighIsAsked()
    ensures forall q: Predicate :: q.HighDivergence? ==> Asks(q)
  {}

  // ----- the gate is fail-closed

  function Level(v: Verdict): nat {
    match v case NO => 0 case MAYBE => 1 case IFF => 2 case YES => 3
  }

  /** b is a with further DENY rules, exclusions and dependencies, and nothing else that the
      verdict looks at. */
  ghost predicate Tightens(a: EvaluationSnapshot, b: EvaluationSnapshot) {
    && b.proposal.actionTypeKey == a.proposal.actionTypeKey && b.proposal.targetKey == a.proposal.targetKey
    && b.proposal.evidenceRefs == a.proposal.evidenceRefs
    && (forall r | r in a.policy.rules :: r in b.policy.rules)
    && (forall r | r in b.policy.rules :: r in a.policy.rules || r.effect == Deny)
    && (forall e | e in a.exclusions :: e in b.exclusions)
    && (forall d | d in a.dependencies :: d in b.dependencies)
    && b.precedents == a.precedents && b.capabilities == a.capabilities
  }

  lemma TighterGrants(a: EvaluationSnapshot, b: EvaluationSnapshot)
    requires Tightens(a, b)
    ensures forall r :: Grants(a, r) <==> Grants(b, r)
    ensures forall r :: Prohibits(a, r) ==> Prohibits(b, r)
  {}

  lemma TighterRows(a: EvaluationSnapshot, b: EvaluationSnapshot)
    requires Tightens(a, b)
    ensures forall x, d :: GovernsAs(a, x, d) <==> GovernsAs(b, x, d)
    ensures forall q :: Evidenced(a, q) <==> Evidenced(b, q)
    ensures forall id, state :: Declares(a, id, state) <==> Declares(b, id, state)
    ensures forall d, state :: DependencyIn(a, d, state) ==> DependencyIn(b, d, state)
    ensures forall e :: e in a.exclusions && Excludes(a.proposal)(e) ==> e in b.exclusions && Excludes(b.proposal)(e)
  {
    hide Meets;
  }

  lemma TighterVerdict(a: EvaluationSnapshot, b: EvaluationSnapshot)
    requires Tightens(a, b)
    ensures Denied(a) ==> Denied(b)
    ensures Unsettled(a) ==> Unsettled(b)
    ensures (exists d :: DependencyIn(a, d, StateUnresolved)) ==> exists d :: DependencyIn(b, d, StateUnresolved)
  {
    assert a.precedents == b.precedents;
    hide Tightens, Grants, Prohibits, GovernsAs, Evidenced, Declares, DependencyIn, Excludes, Complete;
    TighterGrants(a, b);
    TighterRows(a, b);
  }

  /** A further DENY rule, exclusion or dependency never raises a verdict in
      NO < MAYBE < IFF < YES. */
  lemma FailClosed(normalize: Normalizer, config: RuleConfig, a: EvaluationSnapshot, b: EvaluationSnapshot)
    requires Tightens(a, b)
    requires Evaluation(normalize, a, config).Finalized? && Evaluation(normalize, b, config).Finalized?
    ensures Level(Evaluation(normalize, b, config).result.verdict) <= Level(Evaluation(normalize, a, config).result.verdict)
  {
    hide Evaluation, Tightens, Denied, Unsettled;
    VerdictIsDeclared(normalize, a, config);
    VerdictIsDeclared(normalize, b, config);
    TighterVerdict(a, b);
  }

  // ----- the order of the input does not matter

  /** Rearranging any sorted collection, nested ones included, changes nothing in the answer,
      trace and digests included. */
  lemma OrderIsIrrelevant(normalize: Normalizer, config: RuleConfig, a: EvaluationSnapshot, b: EvaluationSnapshot)
    requires Rearranged(a, b)
    ensures Evaluation(normalize, a, config) == Evaluation(normalize, b, config)
  {
    hide Rearranged, CanonicalSnapshot, CanonicalEvaluation;
    RearrangedIsSame(a, b);
  }

  /** Reordering rows and, inside them, requirements, capability lists and consequences changes
      nothing in the answer. */
  lemma ReorderingIsIrrelevant(normalize: Normalizer, config: RuleConfig, a: EvaluationSnapshot, b: EvaluationSnapshot)
    requires Reordered(a, b)
    ensures Evaluation(normalize, a, config) == Evaluation(normalize, b, config)
  {
    hide Reordered, Rearranged, Evaluation;
    ReorderedIsRearranged(a, b);
    OrderIsIrrelevant(normalize, config, a, b);
  }

  /** Whatever the keys, evaluating the canonical form gives the same answer. */
  lemma CanonicalAnswersAlike(normalize: Normalizer, config: RuleConfig, s: EvaluationSnapshot)
    ensures Evaluation(normalize, CanonicalSnapshot(s), config) == Evaluation(normalize, s, config)
  {
    hide CanonicalSnapshot, CanonicalEvaluation;
    CanonicalIsIdempotent(s);
  }

  // ----- blocked evaluations

  /** Codes that only the end of an evaluation can give. */
  predicate LateCode(e: ErrorCode) { e == ReducerNonTotal || e == TraceLimitExceeded }

  ghost predicate NotLate(stop: Option<ErrorCode>) { stop.Some? ==> !LateCode(stop.value) }

  lemma ContentCodes(normalize: Normalizer, s: EvaluationSnapshot, config: RuleConfig)
    ensures NotLate(ContentStop(normalize, s, config))
  {
    hide ActionDigest, ProposalDigest, PolicyDigest, SameDependencyIds;
    ExclusionCodes(normalize, s.exclusions);
  }

  lemma {:induction false} ExclusionCodes(normalize: Normalizer, es: seq<ExclusionRef>)
    ensures NotLate(ExclusionsStop(normalize, es))
  {
    if es != [] { ExclusionCodes(normalize, es[1..]); }
  }

  lemma {:induction false} PriorCodes(e: string, trace: seq<TraceStep>, i: nat)
    requires i <= |trace|
    ensures NotLate(PriorStepsStop(e, trace, i))
    decreases |trace| - i
  {
    hide MakeStepId;
    if i < |trace| { PriorCodes(e, trace, i + 1); }
  }

  lemma InputCodes(normalize: Normalizer, s: EvaluationSnapshot, config: RuleConfig)
    ensures NotLate(InputStop(normalize, s, config))
  {
    hide ConfigAccepted, SnapshotAccepted, ContentStop, PriorStepsStop, Reducers, SnapshotDigest, ResultDigest;
    ContentCodes(normalize, s, config);
    if s.prior.Some? { PriorCodes(s.prior.value.result.evaluationId, s.prior.value.result.trace, 0); }
  }

  /** The non-total stop of the reducer is unreachable. */
  lemma NeverNonTotal(normalize: Normalizer, s: EvaluationSnapshot, config: RuleConfig)
    ensures var outcome := Evaluation(normalize, s, config);
      outcome.Blocked? ==> outcome.blocked.error != ReducerNonTotal
  {
    hide CanonicalSnapshot, InputStop, FactStop, AllFindings, Reduce, Finish;
    var c := CanonicalSnapshot(s);
    InputCodes(normalize, c, config);
    FactCodes(c, config);
    if InputStop(normalize, c, config).None? {
      JudgedConfig(normalize, c, config);
      if FactStop(c, config).None? { ReducerIsTotal(c, config, PriorId(c)); }
    }
  }

  lemma FactCodes(s: EvaluationSnapshot, config: RuleConfig)
    ensures NotLate(FactStop(s, config))
  {}
}
