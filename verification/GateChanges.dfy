/** The report of changed fact rules is exact. */
module GateChanges {
  import opened Canonical
  import opened Changes
  import opened Gate
  import opened GateProperties
  import opened GateRules
  import opened GateTrace
  import opened GateVerdict
  import opened Json
  import opened Models
  import opened Ordering
  import opened Sequences
  import opened Traces

  // ----- an empty report means the same answer

  /** A rule with a single operator step projects that step alone. */
  lemma SingleProjection(trace: seq<TraceStep>, gaps: set<EvidenceGap>, k: nat)
    requires RulesOnce(trace) && k < |trace| && trace[k].OperatorStep? && trace[k].rule != F10
    ensures Projections(trace, gaps, trace[k].rule) == [ProjectionOf(trace, gaps, trace[k])]
  {
    hide ProjectionOf;
    var at := ProjectionsAt(trace, gaps, trace[k].rule);
    forall i | 0 <= i < |trace| && i != k ensures at(trace[i]) == [] {
      assert trace[i].rule != trace[k].rule;
    }
    GatherOnly(at, trace, k);
  }

  lemma UnchangedRule(p: PriorEvaluation, trace: seq<TraceStep>, gaps: set<EvidenceGap>, rule: RuleName)
    requires rule !in ChangedRules(Some(p), trace, gaps)
    requires exists s :: s in p.result.trace + trace && s.rule == rule
    ensures Projections(p.result.trace, p.result.gaps, rule) == Projections(trace, gaps, rule)
  {
    hide Projections;
  }

  /** Every conclusion the prior trace draws is this verdict and risk, on these gaps, from these
      triggered predicates. */
  ghost predicate SameAnswer(p: CheckResult, r: CheckResult, triggered: set<Predicate>) {
    && p.gaps == r.gaps
    && (exists s :: s in p.trace && s.OperatorStep? && s.rule == F12)
    && (forall s | s in p.trace && s.OperatorStep? && s.rule == F12 :: s.fact == Conclusion(r.verdict, r.risk))
    && (exists s :: s in p.trace && s.OperatorStep? && s.rule == F11)
    && (forall s | s in p.trace && s.OperatorStep? && s.rule == F11 :: s.fact == Aggregate(triggered))
  }

  /** A single projection of a rule is the projection of every step of the rule. */
  lemma ProjectedAlone(trace: seq<TraceStep>, gaps: set<EvidenceGap>, rule: RuleName, x: Projection)
    requires Projections(trace, gaps, rule) == [x]
    ensures exists s :: s in trace && s.OperatorStep? && s.rule == rule
    ensures forall s | s in trace && s.OperatorStep? && s.rule == rule :: ProjectionOf(trace, gaps, s) == x
  {
    hide ProjectionOf;
    var at := ProjectionsAt(trace, gaps, rule);
    GatherMembers(at, trace);
    assert x in Projections(trace, gaps, rule);
    var s :| s in trace && x in at(s);
    forall s | s in trace && s.OperatorStep? && s.rule == rule ensures ProjectionOf(trace, gaps, s) == x {
      assert ProjectionOf(trace, gaps, s) in at(s);
      assert ProjectionOf(trace, gaps, s) in [x];
    }
  }

  lemma ConclusionShape(trace: seq<TraceStep>, gaps: set<EvidenceGap>, s: TraceStep)
    requires s.OperatorStep? && s.rule == F12
    ensures var x := ProjectionOf(trace, gaps, s); x.BecausePart? && x.gaps == gaps && x.conclusion == s.fact
  {}

  lemma AggregateShape(trace: seq<TraceStep>, gaps: set<EvidenceGap>, s: TraceStep, t: set<Predicate>)
    requires s.OperatorStep? && s.rule == F11
    ensures var x := ProjectionOf(trace, gaps, s); x.FactPart? && (x.selected == Aggregate(t) <==> s.fact == Aggregate(t))
  {}

  lemma ProjectedConclusion(trace: seq<TraceStep>, gaps: set<EvidenceGap>, x: Projection)
    requires Projections(trace, gaps, F12) == [x] && x.BecausePart?
    ensures x.gaps == gaps
    ensures exists s :: s in trace && s.OperatorStep? && s.rule == F12
    ensures forall s | s in trace && s.OperatorStep? && s.rule == F12 :: s.fact == x.conclusion
  {
    hide Projections, ProjectionOf;
    ProjectedAlone(trace, gaps, F12, x);
    forall s | s in trace && s.OperatorStep? && s.rule == F12 ensures s.fact == x.conclusion && x.gaps == gaps {
      ConclusionShape(trace, gaps, s);
    }
  }

  lemma ProjectedAggregate(trace: seq<TraceStep>, gaps: set<EvidenceGap>, x: Projection, t: set<Predicate>)
    requires Projections(trace, gaps, F11) == [x] && x.FactPart? && x.selected == Aggregate(t)
    ensures exists s :: s in trace && s.OperatorStep? && s.rule == F11
    ensures forall s | s in trace && s.OperatorStep? && s.rule == F11 :: s.fact == Aggregate(t)
  {
    hide Projections, ProjectionOf;
    ProjectedAlone(trace, gaps, F11, x);
    forall s | s in trace && s.OperatorStep? && s.rule == F11 ensures s.fact == Aggregate(t) {
      AggregateShape(trace, gaps, s, t);
    }
  }

  lemma AggregateLast(c: EvaluationSnapshot, config: RuleConfig)
    ensures var f := AllFindings(c, config, PriorId(c));
      f.steps != [] && f.steps[|f.steps| - 1].rule == F11 && f.steps[|f.steps| - 1].fact == Aggregate(Triggered(f))
  {
    hide FactFindings;
    var facts := FactFindings(c, config, PriorId(c));
    AggregateAddsNothing(c.proposal, facts);
    assert AllFindings(c, config, PriorId(c)).steps[|facts.steps|] == AggregateFindings(c.proposal, facts).steps[0];
  }

  /** An empty report means that the prior evaluation drew the same conclusion from the same
      triggered predicates on the same gaps. */
  lemma EmptyReportMeansSame(normalize: Normalizer, s: EvaluationSnapshot, config: RuleConfig, p: PriorEvaluation)
    returns (triggered: set<Predicate>)
    requires s.prior == Some(p) && Evaluation(normalize, s, config).Finalized?
    requires Evaluation(normalize, s, config).result.changedFactRules == {}
    ensures Records(Evaluation(normalize, s, config).result, triggered)
    ensures SameAnswer(p.result, Evaluation(normalize, s, config).result, triggered)
  {
    hide Evaluation, FinishedAs, Assembled, CanonicalSnapshot, InputStop, Records, SameAnswer, FullTrace, Triggered;
    var c, f, red := Finished(normalize, s, config);
    var r := Evaluation(normalize, s, config).result;
    triggered := Triggered(f);
    FinishedAssembled(c, config, f, red, r);
    FinishedFields(c, config, f, red, r);
    FinishedFindings(c, config, f, red, r);
    RecordedTriggers(c, config, f, red, r);
    PriorKept(s);
    EmptyReport(c, config, f, red, r, p);
  }

  lemma PriorKept(s: EvaluationSnapshot)
    ensures CanonicalSnapshot(s).prior == s.prior
  {}

  lemma FinishedChanges(c: EvaluationSnapshot, config: RuleConfig, f: Findings, red: Reduction, r: CheckResult)
    requires FinishedAs(c, config, f, red, r)
    ensures |f.steps| + 2 <= TRACE_LIMIT
    ensures r.changedFactRules == ChangedRules(c.prior, FullTrace(c, f, red), red.gaps)
  {
    hide AllFindings, FactStop, ConfigAccepted, Thresholds, Reduce, FullTrace, SortedDependencies, Warnings, ChangedRules;
  }

  lemma EmptyReport(c: EvaluationSnapshot, config: RuleConfig, f: Findings, red: Reduction, r: CheckResult, p: PriorEvaluation)
    requires FinishedAs(c, config, f, red, r) && Assembled(c, f, red) && c.prior == Some(p) && r.changedFactRules == {}
    ensures SameAnswer(p.result, r, Triggered(f))
  {
    hide FinishedAs, Assembled, Triggered, Projections, ChangedRules, FullTrace, AllFindings, RulesOnce, Paired, ProjectionOf, Selected;
    FinishedFindings(c, config, f, red, r);
    FinishedChanges(c, config, f, red, r);
    FinishedVerdict(c, config, f, red, r);
    AggregateLast(c, config);
    var t := FullTrace(c, f, red);
    TraceEnds(c, f, red);
    TraceOrder(c, f, red);
    SingleProjection(t, red.gaps, |t| - 1);
    SingleProjection(t, red.gaps, |f.steps| - 1);
    ProjectionShapes(t, red.gaps, t[|t| - 1]);
    ProjectionShapes(t, red.gaps, t[|f.steps| - 1]);
    UnchangedRule(p, t, red.gaps, F12);
    UnchangedRule(p, t, red.gaps, F11);
    ProjectedConclusion(p.result.trace, p.result.gaps, ProjectionOf(t, red.gaps, t[|t| - 1]));
    ProjectedAggregate(p.result.trace, p.result.gaps, ProjectionOf(t, red.gaps, t[|f.steps| - 1]), Triggered(f));
  }

  lemma TraceEnds(c: EvaluationSnapshot, f: Findings, red: Reduction)
    requires |f.steps| + 2 <= TRACE_LIMIT && f.steps != []
    requires f.steps[|f.steps| - 1].rule == F11 && f.steps[|f.steps| - 1].fact == Aggregate(Triggered(f))
    ensures var t := FullTrace(c, f, red);
      && t[|t| - 1].OperatorStep? && t[|t| - 1].rule == F12 && t[|t| - 1].fact == Conclusion(red.verdict, red.risk)
      && t[|f.steps| - 1].OperatorStep? && t[|f.steps| - 1].rule == F11 && t[|f.steps| - 1].fact == Aggregate(Triggered(f))
      && t[|t| - 1] in t && t[|f.steps| - 1] in t
  {
    hide StepId, Sort, DecisiveIds, SortedDependencies, Triggered;
  }

  lemma ProjectionShapes(t: seq<TraceStep>, gaps: set<EvidenceGap>, s: TraceStep)
    requires s.OperatorStep?
    ensures s.rule == F12 ==> ProjectionOf(t, gaps, s).BecausePart? && ProjectionOf(t, gaps, s).conclusion == s.fact
                              && ProjectionOf(t, gaps, s).gaps == gaps
    ensures s.rule == F11 && s.fact.Aggregate? ==> ProjectionOf(t, gaps, s).FactPart? && ProjectionOf(t, gaps, s).selected == s.fact
  {}

  lemma ConclusionRecorded(c: EvaluationSnapshot, config: RuleConfig, f: Findings, red: Reduction, r: CheckResult)
    requires FinishedAs(c, config, f, red, r)
    ensures exists s :: s in r.trace && s.OperatorStep? && s.rule == F12 && s.fact == Conclusion(r.verdict, r.risk)
  {
    hide FinishedAs, Assembled, FullTrace, AllFindings, Triggered;
    FinishedFindings(c, config, f, red, r);
    FinishedFields(c, config, f, red, r);
    FinishedVerdict(c, config, f, red, r);
    AggregateLast(c, config);
    TraceEnds(c, f, red);
  }

  /** An empty report against a prior answer of the gate means the same verdict, risk and gaps. */
  lemma EmptyReportKeepsVerdict(normalize: Normalizer, config: RuleConfig, a: EvaluationSnapshot, b: EvaluationSnapshot, p: PriorEvaluation)
    requires Evaluation(normalize, a, config).Finalized? && Evaluation(normalize, b, config).Finalized?
    requires b.prior == Some(p) && p.result == Evaluation(normalize, a, config).result
    requires Evaluation(normalize, b, config).result.changedFactRules == {}
    ensures var (x, y) := (Evaluation(normalize, a, config).result, Evaluation(normalize, b, config).result);
      y.verdict == x.verdict && y.risk == x.risk && y.gaps == x.gaps
  {
    hide Evaluation, FinishedAs, CanonicalSnapshot, InputStop, Records;
    var c, f, red := Finished(normalize, a, config);
    ConclusionRecorded(c, config, f, red, Evaluation(normalize, a, config).result);
    var triggered := EmptyReportMeansSame(normalize, b, config, p);
  }

  // ----- the same facts under fresh identities

  /** The same proposal, policy and facts, evaluated under another identity, time and prior. */
  ghost predicate SameFacts(a: EvaluationSnapshot, b: EvaluationSnapshot) {
    b == a.(evaluationId := b.evaluationId, snapshotId := b.snapshotId, profileVersion := b.profileVersion,
            prior := b.prior, capturedAt := b.capturedAt, snapshotDigest := b.snapshotDigest)
  }

  lemma SameFactsCanonical(a: EvaluationSnapshot, b: EvaluationSnapshot)
    requires SameFacts(a, b)
    ensures SameFacts(CanonicalSnapshot(a), CanonicalSnapshot(b))
  {
    hide Sort, CanonicalRules, CanonicalProposal;
  }

  /** The findings after the first step. */
  function Rest(s: EvaluationSnapshot, c: RuleConfig): Findings {
    PolicyPart(s).Then(ExclusionPart(s)).Then(RetrievalPart(s, c)).Then(IdentityFindings(s.proposal, NearOnes(s, c)))
      .Then(ApprovalPart(s, c)).Then(ConflictPart(s, c)).Then(EvidencePart(s)).Then(ConsequencePart(s, c))
      .Then(CapabilityPart(s)).Then(DependencyPart(s))
  }

  function Tail(s: EvaluationSnapshot, c: RuleConfig): Findings {
    Rest(s, c).Then(AggregateFindings(s.proposal, Rest(s, c)))
  }

  lemma ThenAssoc(a: Findings, b: Findings, c: Findings)
    ensures a.Then(b).Then(c) == a.Then(b.Then(c))
  {}

  lemma FactsDecompose(s: EvaluationSnapshot, c: RuleConfig, id: Option<string>)
    ensures FactFindings(s, c, id) == BindFindings(s, c, id).Then(Rest(s, c))
  {
    hide BindFindings, ScopeFindings, ExclusionFindings, RetrievalFindings, IdentityFindings, ApprovalFindings, ConflictFindings,
      EvidenceFindings, ConsequenceFindings, CapabilityFindings, DependencyFindings, Findings.Then;
    var b, i := BindFindings(s, c, id), IdentityFindings(s.proposal, NearOnes(s, c));
    var x := PolicyPart(s);
    ThenAssoc(b, x, ExclusionPart(s));
    x := x.Then(ExclusionPart(s));
    ThenAssoc(b, x, RetrievalPart(s, c));
    x := x.Then(RetrievalPart(s, c));
    ThenAssoc(b, x, i);
    x := x.Then(i);
    ThenAssoc(b, x, ApprovalPart(s, c));
    x := x.Then(ApprovalPart(s, c));
    ThenAssoc(b, x, ConflictPart(s, c));
    x := x.Then(ConflictPart(s, c));
    ThenAssoc(b, x, EvidencePart(s));
    x := x.Then(EvidencePart(s));
    ThenAssoc(b, x, ConsequencePart(s, c));
    x := x.Then(ConsequencePart(s, c));
    ThenAssoc(b, x, CapabilityPart(s));
    x := x.Then(CapabilityPart(s));
    ThenAssoc(b, x, DependencyPart(s));
  }

  lemma BindAddsNoPredicate(b: Findings, f: Findings)
    requires b.r1 == b.r2 == b.r3 == []
    ensures Triggered(b.Then(f)) == Triggered(f)
  {
    assert b.Then(f).r1 == f.r1 && b.Then(f).r2 == f.r2 && b.Then(f).r3 == f.r3;
  }

  lemma Decompose(s: EvaluationSnapshot, c: RuleConfig, id: Option<string>)
    ensures AllFindings(s, c, id) == BindFindings(s, c, id).Then(Tail(s, c))
  {
    hide FactFindings, BindFindings, Rest, Findings.Then, Triggered;
    FactsDecompose(s, c, id);
    var b, r := BindFindings(s, c, id), Rest(s, c);
    BindAddsNoPredicate(b, r);
    ThenAssoc(b, r, AggregateFindings(s.proposal, r));
  }

  lemma SameLists(a: EvaluationSnapshot, b: EvaluationSnapshot, c: RuleConfig)
    requires SameFacts(a, b)
    ensures AllowRules(a) == AllowRules(b) && DenyRules(a) == DenyRules(b) && Applicable(a) == Applicable(b)
    ensures NearOnes(a, c) == NearOnes(b, c) && Qualifying(a, c) == Qualifying(b, c) && Approved(a, c) == Approved(b, c)
    ensures Requirements(a) == Requirements(b) && SortedDependencies(a) == SortedDependencies(b)
  {
    hide Sort, Filter, Gather;
  }

  lemma SameRest(a: EvaluationSnapshot, b: EvaluationSnapshot, c: RuleConfig)
    requires SameFacts(a, b)
    ensures Rest(a, c) == Rest(b, c)
  {
    hide Findings.Then, ExclusionFindings, RetrievalFindings, IdentityFindings, ApprovalFindings, ConflictFindings,
      EvidenceFindings, ConsequenceFindings, CapabilityFindings, DependencyFindings, Sort, Filter, Gather,
      AllowRules, DenyRules, Applicable, NearOnes, Qualifying, Approved, Requirements, SortedDependencies, Each, PolicyGap, TargetGap;
    SameLists(a, b, c);
  }

  lemma SameReduction(a: EvaluationSnapshot, b: EvaluationSnapshot, c: RuleConfig)
    requires SameFacts(a, b)
    ensures Tail(a, c) == Tail(b, c)
    ensures Reduce(a, c, AllFindings(a, c, PriorId(a))) == Reduce(b, c, AllFindings(b, c, PriorId(b)))
  {
    hide AllFindings, Rest, AggregateFindings, Sort, Filter, Gather, AllowRules, Approved, Requirements, SortedDependencies,
      BindFindings, RulesOf, GapSet, RequiredCapabilities, ConsequenceRequired;
    SameRest(a, b, c);
    SameLists(a, b, c);
    Decompose(a, c, PriorId(a));
    Decompose(b, c, PriorId(b));
    BindKeepsLists(BindFindings(a, c, PriorId(a)), Tail(a, c));
    BindKeepsLists(BindFindings(b, c, PriorId(b)), Tail(b, c));
  }

  lemma BindKeepsLists(b: Findings, f: Findings)
    requires b.r1 == b.r2 == b.r3 == [] && b.gaps == []
    ensures b.Then(f).r1 == f.r1 && b.Then(f).r2 == f.r2 && b.Then(f).r3 == f.r3 && b.Then(f).gaps == f.gaps
  {}

  // ----- traces that differ in identities only

  predicate AlikeStep(x: TraceStep, y: TraceStep) {
    && x.rule == y.rule && x.OperatorStep? == y.OperatorStep?
    && (x.OperatorStep? ==> x.family == y.family && x.pole == y.pole && Selected(x.rule, x.fact) == Selected(y.rule, y.fact))
  }

  ghost predicate Alike(t: seq<TraceStep>, u: seq<TraceStep>) {
    |t| == |u| && forall i | 0 <= i < |t| :: AlikeStep(t[i], u[i])
  }

  lemma {:induction false} AlikeGather(
    w: seq<TraceStep>, g: set<EvidenceGap>, v: seq<TraceStep>, h: set<EvidenceGap>, r: RuleName, t: seq<TraceStep>, u: seq<TraceStep>)
    requires r != F12 && Alike(t, u)
    ensures Gather(ProjectionsAt(w, g, r), t) == Gather(ProjectionsAt(v, h, r), u)
  {
    hide Selected, RulesNamed;
    if t != [] {
      var n := |t|;
      AlikeGather(w, g, v, h, r, t[..n - 1], u[..n - 1]);
      assert AlikeStep(t[n - 1], u[n - 1]);
      assert ProjectionsAt(w, g, r)(t[n - 1]) == ProjectionsAt(v, h, r)(u[n - 1]);
    }
  }

  /** The same steps number by number: only the first step records identities. */
  lemma BindAlike(a: EvaluationSnapshot, b: EvaluationSnapshot, c: RuleConfig)
    requires SameFacts(a, b)
    ensures var (x, y) := (BindFindings(a, c, PriorId(a)).steps, BindFindings(b, c, PriorId(b)).steps);
      && |x| == |y| == 1 && x[0].rule == y[0].rule == F01 && x[0].family == y[0].family && x[0].pole == y[0].pole
      && Selected(F01, x[0].fact) == Selected(F01, y[0].fact)
  {}

  lemma StepsSplit(s: EvaluationSnapshot, c: RuleConfig)
    ensures AllFindings(s, c, PriorId(s)).steps == BindFindings(s, c, PriorId(s)).steps + Tail(s, c).steps
  {
    hide AllFindings, BindFindings, Tail;
    Decompose(s, c, PriorId(s));
  }

  lemma SameBehindFirst(x: seq<Descriptor>, y: seq<Descriptor>, t: seq<Descriptor>)
    requires |x| == |y| == 1
    ensures (x + t)[0] == x[0] && (y + t)[0] == y[0] && |x + t| == |y + t|
    ensures forall i | 1 <= i < |x + t| :: (x + t)[i] == (y + t)[i]
  {}

  lemma SameSteps(a: EvaluationSnapshot, b: EvaluationSnapshot, c: RuleConfig)
    requires SameFacts(a, b)
    ensures var (x, y) := (AllFindings(a, c, PriorId(a)).steps, AllFindings(b, c, PriorId(b)).steps);
      && |x| == |y| >= 1
      && x[0].rule == y[0].rule == F01 && x[0].family == y[0].family && x[0].pole == y[0].pole
      && Selected(F01, x[0].fact) == Selected(F01, y[0].fact)
      && forall i | 1 <= i < |x| :: x[i] == y[i]
  {
    hide AllFindings, BindFindings, Tail, Selected, SameFacts, Reduce;
    StepsSplit(a, c);
    StepsSplit(b, c);
    BindAlike(a, b, c);
    SameReduction(a, b, c);
    SameBehindFirst(BindFindings(a, c, PriorId(a)).steps, BindFindings(b, c, PriorId(b)).steps, Tail(a, c).steps);
  }

  lemma AlikeTraces(a: EvaluationSnapshot, b: EvaluationSnapshot, f: Findings, g: Findings, red: Reduction)
    requires |f.steps| == |g.steps| >= 1 && |f.steps| + 2 <= TRACE_LIMIT
    requires f.steps[0].rule == g.steps[0].rule == F01 && f.steps[0].family == g.steps[0].family && f.steps[0].pole == g.steps[0].pole
    requires Selected(F01, f.steps[0].fact) == Selected(F01, g.steps[0].fact)
    requires forall i | 1 <= i < |f.steps| :: f.steps[i] == g.steps[i]
    ensures Alike(FullTrace(a, f, red), FullTrace(b, g, red))
  {
    hide StepId, Sort, Selected, DecisiveIds, SortedDependencies;
    var t, u := FullTrace(a, f, red), FullTrace(b, g, red);
    forall i | 0 <= i < |t| ensures AlikeStep(t[i], u[i]) {
      if i < |f.steps| { assert i == 0 || f.steps[i] == g.steps[i]; }
    }
  }

  // ----- the decisive rules a conclusion names

  ghost predicate UniqueIds(trace: seq<TraceStep>) {
    forall i, j | 0 <= i < j < |trace| :: trace[i].stepId != trace[j].stepId
  }

  lemma AcceptedIdsUnique(e: string, trace: seq<TraceStep>)
    requires forall i | 0 <= i < |trace| :: StepAccepted(e, trace, i, false)
    ensures UniqueIds(trace)
  {
    hide StepId;
    forall i, j | 0 <= i < j < |trace| ensures trace[i].stepId != trace[j].stepId {
      assert StepAccepted(e, trace, i, false) && StepAccepted(e, trace, j, false);
      if trace[i].stepId == trace[j].stepId { StepIdTellsOrdinal(e, i + 1, trace[i].rule, j + 1, trace[j].rule); }
    }
  }

  lemma {:induction false} RuleOfOwnId(trace: seq<TraceStep>, k: nat)
    requires UniqueIds(trace) && k < |trace|
    ensures RuleOf(trace, trace[k].stepId) == Some(trace[k].rule)
  {
    if k < |trace| - 1 { RuleOfOwnId(trace[..|trace| - 1], k); }
  }

  lemma {:induction false} NamedRules(trace: seq<TraceStep>, xs: seq<TraceStep>)
    requires UniqueIds(trace) && forall x | x in xs :: x in trace
    ensures Gather(RulesNamed(trace), Each(StepIdOf, xs)) == Each(RuleOfStep, xs)
  {
    var n := |xs|;
    if n > 0 {
      NamedRules(trace, xs[..n - 1]);
      assert Each(StepIdOf, xs)[..n - 1] == Each(StepIdOf, xs[..n - 1]);
      assert xs[n - 1] in xs;
      var k :| 0 <= k < |trace| && trace[k] == xs[n - 1];
      RuleOfOwnId(trace, k);
      assert Each(RuleOfStep, xs) == Each(RuleOfStep, xs[..n - 1]) + [xs[n - 1].rule];
    }
  }

  lemma {:induction false} FilteredRules(t: seq<TraceStep>, u: seq<TraceStep>, rules: set<RuleName>)
    requires |t| == |u| && forall i | 0 <= i < |t| :: t[i].rule == u[i].rule
    ensures Each(RuleOfStep, Filter(InRules(rules), t)) == Each(RuleOfStep, Filter(InRules(rules), u))
  {
    var n := |t|;
    if n > 0 {
      FilteredRules(t[..n - 1], u[..n - 1], rules);
      FilteredStep(t, rules);
      FilteredStep(u, rules);
    }
  }

  lemma FilteredStep(t: seq<TraceStep>, rules: set<RuleName>)
    requires t != []
    ensures Each(RuleOfStep, Filter(InRules(rules), t)) ==
      Each(RuleOfStep, Filter(InRules(rules), t[..|t| - 1])) + if t[|t| - 1].rule in rules then [t[|t| - 1].rule] else []
  {}

  /** The rules of the steps whose identities happen to be identities of unresolved dependencies. */
  function Collisions(trace: seq<TraceStep>, ds: seq<DependencyRef>): multiset<RuleName> {
    multiset(Gather(RulesNamed(trace), Each(DependencyId, Filter(IsUnresolved, ds))))
  }

  lemma ConclusionRefs(s: EvaluationSnapshot, f: Findings, red: Reduction)
    requires |f.steps| + 2 <= TRACE_LIMIT
    ensures var (t, n) := (FullTrace(s, f, red), |f.steps|);
      && t[n].rule == red.rule && t[..n] == Numbered(s.evaluationId, f.steps)
      && t[n + 1].OperatorStep?
      && t[n + 1].objectRefs == [t[n].stepId] + DecisiveIds(t[..n], red.decisive)
                                + Each(DependencyId, Filter(IsUnresolved, SortedDependencies(s)))
  {
    hide StepId, Sort, SortedDependencies, Filter, Each, DecisiveIds;
    var t, n := FullTrace(s, f, red), |f.steps|;
    assert t[..n] == Numbered(s.evaluationId, f.steps);
  }

  lemma NamedDecisive(t: seq<TraceStep>, n: nat, rules: set<RuleName>)
    requires UniqueIds(t) && n < |t|
    ensures Gather(RulesNamed(t), [t[n].stepId] + DecisiveIds(t[..n], rules)) == [t[n].rule] + Each(RuleOfStep, Filter(InRules(rules), t[..n]))
  {
    hide Filter, RulesNamed;
    var chosen := Filter(InRules(rules), t[..n]);
    FilterMembers(InRules(rules), t[..n]);
    var xs := [t[n]] + chosen;
    NamedRules(t, xs);
    assert Each(StepIdOf, xs) == [t[n].stepId] + DecisiveIds(t[..n], rules);
    assert Each(RuleOfStep, xs) == [t[n].rule] + Each(RuleOfStep, chosen);
  }

  /** The rules a conclusion names: the reducer, the decisive rules, and the collisions. */
  lemma ConclusionRules(s: EvaluationSnapshot, f: Findings, red: Reduction)
    requires Assembled(s, f, red)
    ensures var t := FullTrace(s, f, red);
      multiset(Gather(RulesNamed(t), t[|t| - 1].objectRefs)) ==
        multiset([red.rule] + Each(RuleOfStep, Filter(InRules(red.decisive), t[..|f.steps|]))) + Collisions(t, SortedDependencies(s))
  {
    hide StepAccepted, Filter, RulesNamed, Stretch, FullTrace, SortedDependencies, DecisiveIds, Each, Gather;
    var t, n := FullTrace(s, f, red), |f.steps|;
    TraceUnique(s, f, red);
    ConclusionRefs(s, f, red);
    NamedDecisive(t, n, red.decisive);
    GatherConcat(RulesNamed(t), [t[n].stepId] + DecisiveIds(t[..n], red.decisive),
                 Each(DependencyId, Filter(IsUnresolved, SortedDependencies(s))));
  }

  lemma TraceUnique(s: EvaluationSnapshot, f: Findings, red: Reduction)
    requires Assembled(s, f, red)
    ensures UniqueIds(FullTrace(s, f, red))
  {
    hide Assembled, FullTrace, StepAccepted, RulesOnce, Paired;
    AssembledAccepted(s, f, red);
    AcceptedIdsUnique(s.evaluationId, FullTrace(s, f, red));
  }

  // ----- the report after re-evaluating the same facts

  lemma TraceLengths(s: EvaluationSnapshot, f: Findings, red: Reduction)
    requires Assembled(s, f, red)
    ensures |f.steps| + 2 <= TRACE_LIMIT
    ensures var t := FullTrace(s, f, red);
      && |t| == |f.steps| + 2 && t[..|f.steps|] == Numbered(s.evaluationId, f.steps)
      && t[|t| - 1].OperatorStep? && t[|t| - 1].rule == F12 && t[|t| - 1].family == Because && t[|t| - 1].pole == BECAUSE
      && t[|t| - 1].fact == Conclusion(red.verdict, red.risk)
  {
    hide StepId, Sort, DecisiveIds, SortedDependencies, Stretch;
  }

  /** The conclusions of two assembled traces over the same rules differ in their collisions only. */
  lemma ConclusionsCompare(a: EvaluationSnapshot, b: EvaluationSnapshot, f: Findings, g: Findings, red: Reduction)
    requires Assembled(a, f, red) && Assembled(b, g, red) && |f.steps| == |g.steps|
    requires forall i | 0 <= i < |f.steps| :: f.steps[i].rule == g.steps[i].rule
    ensures var (t, u) := (FullTrace(a, f, red), FullTrace(b, g, red));
      ProjectionOf(t, red.gaps, t[|t| - 1]) == ProjectionOf(u, red.gaps, u[|u| - 1]) <==>
      Collisions(t, SortedDependencies(a)) == Collisions(u, SortedDependencies(b))
  {
    hide Assembled, FullTrace, Collisions, SortedDependencies, Filter, RulesNamed, Each, StepId;
    TraceLengths(a, f, red);
    TraceLengths(b, g, red);
    ConclusionRules(a, f, red);
    ConclusionRules(b, g, red);
    var t, u, n := FullTrace(a, f, red), FullTrace(b, g, red), |f.steps|;
    FilteredRules(t[..n], u[..n], red.decisive);
    var m := multiset([red.rule] + Each(RuleOfStep, Filter(InRules(red.decisive), t[..n])));
    CancelMultiset(m, Collisions(t, SortedDependencies(a)), Collisions(u, SortedDependencies(b)));
  }

  lemma CancelMultiset<T>(m: multiset<T>, x: multiset<T>, y: multiset<T>)
    ensures m + x == m + y <==> x == y
  {
    if m + x == m + y {
      forall e ensures x[e] == y[e] { assert (m + x)[e] == (m + y)[e]; }
    }
  }

  /** Comparing two alike traces on the same gaps: only the conclusion can differ. */
  lemma ChangesOfAlike(p: PriorEvaluation, u: seq<TraceStep>, gaps: set<EvidenceGap>)
    requires Alike(p.result.trace, u) && p.result.gaps == gaps
    requires RulesOnce(p.result.trace) && RulesOnce(u) && u != []
    requires p.result.trace[|u| - 1].OperatorStep? && p.result.trace[|u| - 1].rule == F12
    ensures ChangedRules(Some(p), u, gaps) ==
      if ProjectionOf(p.result.trace, gaps, p.result.trace[|u| - 1]) == ProjectionOf(u, gaps, u[|u| - 1]) then {} else {F12}
  {
    hide ProjectionOf, Projections, RulesOnce, Selected;
    var t, k := p.result.trace, |u| - 1;
    assert AlikeStep(t[k], u[k]);
    SingleProjection(t, gaps, k);
    SingleProjection(u, gaps, k);
    forall r | r != F12 ensures Projections(t, gaps, r) == Projections(u, gaps, r) { AlikeProjections(t, u, gaps, r); }
    assert u[k] in t + u && u[k].rule == F12;
  }

  lemma AlikeProjections(t: seq<TraceStep>, u: seq<TraceStep>, gaps: set<EvidenceGap>, r: RuleName)
    requires r != F12 && Alike(t, u)
    ensures Projections(t, gaps, r) == Projections(u, gaps, r)
  {
    AlikeGather(t, gaps, u, gaps, r, t, u);
  }

  lemma SameAnswers(a: EvaluationSnapshot, b: EvaluationSnapshot, c: RuleConfig, f: Findings, g: Findings, red: Reduction, out: Reduction,
                    x: CheckResult, y: CheckResult)
    requires SameFacts(a, b) && FinishedAs(a, c, f, red, x) && FinishedAs(b, c, g, out, y)
    ensures out == red && |f.steps| == |g.steps| >= 1
    ensures f.steps[0].rule == g.steps[0].rule == F01 && f.steps[0].family == g.steps[0].family && f.steps[0].pole == g.steps[0].pole
    ensures Selected(F01, f.steps[0].fact) == Selected(F01, g.steps[0].fact)
    ensures forall i | 1 <= i < |f.steps| :: f.steps[i] == g.steps[i]
  {
    hide FinishedAs, Selected, AllFindings;
    FinishedFindings(a, c, f, red, x);
    FinishedFindings(b, c, g, out, y);
    FinishedReduction(a, c, f, red, x);
    FinishedReduction(b, c, g, out, y);
    SameReduction(a, b, c);
    SameSteps(a, b, c);
  }

  lemma FinishedReduction(c: EvaluationSnapshot, config: RuleConfig, f: Findings, red: Reduction, r: CheckResult)
    requires FinishedAs(c, config, f, red, r)
    ensures Reduce(c, config, f) == Some(red)
  {
    hide AllFindings, FactStop, ConfigAccepted, Thresholds, Reduce, Finish;
  }

  lemma CanonicalReport(a: EvaluationSnapshot, b: EvaluationSnapshot, c: RuleConfig, f: Findings, g: Findings, red: Reduction, out: Reduction,
                        x: CheckResult, y: CheckResult, p: PriorEvaluation)
    requires SameFacts(a, b) && FinishedAs(a, c, f, red, x) && FinishedAs(b, c, g, out, y)
    requires b.prior == Some(p) && p.result == x
    ensures y.verdict == x.verdict && y.risk == x.risk && y.gaps == x.gaps && y.dependencies == x.dependencies
    ensures y.changedFactRules == if Collisions(x.trace, x.dependencies) == Collisions(y.trace, y.dependencies) then {} else {F12}
    ensures |y.trace| == |x.trace| && forall i | 0 <= i < |x.trace| :: y.trace[i].rule == x.trace[i].rule
  {
    hide FinishedAs, Assembled, FullTrace, Collisions, SortedDependencies, ChangedRules, Alike, RulesOnce, Paired, Selected, ProjectionOf;
    SameAnswers(a, b, c, f, g, red, out, x, y);
    FinishedAssembled(a, c, f, red, x);
    FinishedAssembled(b, c, g, red, y);
    FinishedFields(a, c, f, red, x);
    FinishedFields(b, c, g, red, y);
    FinishedVerdict(a, c, f, red, x);
    FinishedVerdict(b, c, g, red, y);
    FinishedChanges(b, c, g, red, y);
    AlikeTraces(a, b, f, g, red);
    AlikeRules(x.trace, y.trace);
    TraceOrder(a, f, red);
    TraceOrder(b, g, red);
    TraceLengths(a, f, red);
    ChangesOfAlike(p, y.trace, red.gaps);
    ConclusionsCompare(a, b, f, g, red);
    SameDependencies(a, b);
  }

  lemma SameDependencies(a: EvaluationSnapshot, b: EvaluationSnapshot)
    requires SameFacts(a, b)
    ensures SortedDependencies(a) == SortedDependencies(b)
  {
    hide Sort;
  }

  lemma AlikeRules(t: seq<TraceStep>, u: seq<TraceStep>)
    requires Alike(t, u)
    ensures |u| == |t| && forall i | 0 <= i < |t| :: u[i].rule == t[i].rule
  {
    hide Selected;
    forall i | 0 <= i < |t| ensures u[i].rule == t[i].rule { assert AlikeStep(t[i], u[i]); }
  }

  /** A trace with the step identities it has under another evaluation. */
  function Renumbered(evaluationId: string, trace: seq<TraceStep>): (r: seq<TraceStep>)
    requires |trace| <= TRACE_LIMIT
    ensures |r| == |trace|
  {
    seq(|trace|, i requires 0 <= i < |trace| => trace[i].(stepId := StepId(evaluationId, i + 1, trace[i].rule)))
  }

  lemma {:induction false} SameNames(t: seq<TraceStep>, u: seq<TraceStep>, id: string)
    requires |t| == |u| && forall i | 0 <= i < |t| :: t[i].stepId == u[i].stepId && t[i].rule == u[i].rule
    ensures RuleOf(t, id) == RuleOf(u, id)
  {
    if t != [] { SameNames(t[..|t| - 1], u[..|u| - 1], id); }
  }

  lemma {:induction false} GatherAgrees<T(!new), U>(f: T -> seq<U>, g: T -> seq<U>, s: seq<T>)
    requires forall x :: f(x) == g(x)
    ensures Gather(f, s) == Gather(g, s)
  {
    if s != [] { GatherAgrees(f, g, s[..|s| - 1]); }
  }

  lemma SameCollisions(t: seq<TraceStep>, u: seq<TraceStep>, ds: seq<DependencyRef>)
    requires |t| == |u| && forall i | 0 <= i < |t| :: t[i].stepId == u[i].stepId && t[i].rule == u[i].rule
    ensures Collisions(t, ds) == Collisions(u, ds) && (Collides(t, ds) <==> Collides(u, ds))
  {
    hide RuleOf;
    forall id ensures RulesNamed(t)(id) == RulesNamed(u)(id) { SameNames(t, u, id); }
    GatherAgrees(RulesNamed(t), RulesNamed(u), Each(DependencyId, Filter(IsUnresolved, ds)));
    CollisionsMean(t, ds);
    CollisionsMean(u, ds);
  }

  /** The trace of the later evaluation carries the identities of the renumbered prior trace. */
  lemma LaterTrace(normalize: Normalizer, b: EvaluationSnapshot, config: RuleConfig, t: seq<TraceStep>)
    requires Evaluation(normalize, b, config).Finalized?
    requires var u := Evaluation(normalize, b, config).result.trace; |u| == |t| && forall i | 0 <= i < |t| :: u[i].rule == t[i].rule
    ensures |t| <= TRACE_LIMIT
    ensures var u := Evaluation(normalize, b, config).result.trace;
      forall i | 0 <= i < |t| :: u[i].stepId == Renumbered(b.evaluationId, t)[i].stepId && u[i].rule == Renumbered(b.evaluationId, t)[i].rule
  {
    hide Evaluation, Paired, RulesOnce, ReducerBound, AllowedPole, StepRule, StepId;
    FinishedTraceAccepted(normalize, b, config);
    AnswerIsBound(normalize, b, config);
    var u := Evaluation(normalize, b, config).result.trace;
    forall i | 0 <= i < |t| ensures u[i].stepId == StepId(b.evaluationId, i + 1, t[i].rule) {
      assert StepAccepted(b.evaluationId, u, i, false);
    }
  }

  /** Evaluating the same facts again under fresh identities gives the same verdict, risk and
      gaps. Which rules are reported can be told from the prior and the new identity alone: none,
      except that F12 is reported exactly when the identities of unresolved dependencies name
      different rules among the step identities of the prior and the step identities that the
      same rules get under the new identity. */
  lemma ReportIsExact(normalize: Normalizer, config: RuleConfig, a: EvaluationSnapshot, b: EvaluationSnapshot, p: PriorEvaluation)
    requires Evaluation(normalize, a, config).Finalized? && Evaluation(normalize, b, config).Finalized?
    requires SameFacts(a, b) && b.prior == Some(p) && p.result == Evaluation(normalize, a, config).result
    ensures var (x, y) := (p.result, Evaluation(normalize, b, config).result);
      && y.verdict == x.verdict && y.risk == x.risk && y.gaps == x.gaps && |x.trace| <= TRACE_LIMIT
      && y.changedFactRules ==
           if Collisions(x.trace, x.dependencies) == Collisions(Renumbered(b.evaluationId, x.trace), x.dependencies) then {} else {F12}
  {
    hide Evaluation, FinishedAs, SameFacts, CanonicalSnapshot, InputStop, Collisions, Renumbered, Collides;
    var ca, f, red := Finished(normalize, a, config);
    var cb, g, out := Finished(normalize, b, config);
    var y := Evaluation(normalize, b, config).result;
    SameFactsCanonical(a, b);
    PriorKept(b);
    CanonicalReport(ca, cb, config, f, g, red, out, p.result, y, p);
    LaterTrace(normalize, b, config, p.result.trace);
    SameCollisions(y.trace, Renumbered(b.evaluationId, p.result.trace), p.result.dependencies);
  }

  ghost predicate Collides(trace: seq<TraceStep>, ds: seq<DependencyRef>) {
    exists d, s :: d in ds && d.state == StateUnresolved && s in trace && s.stepId == d.dependencyId
  }

  lemma {:induction false} NoRuleNamed(trace: seq<TraceStep>, id: string)
    ensures RuleOf(trace, id) == None <==> forall s | s in trace :: s.stepId != id
  {
    if trace != [] {
      NoRuleNamed(trace[..|trace| - 1], id);
      assert trace == trace[..|trace| - 1] + [trace[|trace| - 1]];
    }
  }

  lemma CollisionsMean(trace: seq<TraceStep>, ds: seq<DependencyRef>)
    ensures Collisions(trace, ds) == multiset{} <==> !Collides(trace, ds)
  {
    hide Filter, Gather, RuleOf;
    var ids := Each(DependencyId, Filter(IsUnresolved, ds));
    FilterMembers(IsUnresolved, ds);
    EachMembers(DependencyId, Filter(IsUnresolved, ds));
    GatherEmpty(RulesNamed(trace), ids);
    forall id ensures RulesNamed(trace)(id) == [] <==> forall s | s in trace :: s.stepId != id { NoRuleNamed(trace, id); }
    assert multiset(Gather(RulesNamed(trace), ids)) == multiset{} <==> Gather(RulesNamed(trace), ids) == [] by {
      var r := Gather(RulesNamed(trace), ids);
      assert r != [] ==> r[0] in multiset(r);
    }
    if Collides(trace, ds) {
      var d, s :| d in ds && d.state == StateUnresolved && s in trace && s.stepId == d.dependencyId;
      assert d in Filter(IsUnresolved, ds) && DependencyId(d) in ids;
    }
  }

  /** Without collisions the report is empty; with a collision in one of the two numberings alone
      it is a false alarm: F12 is reported although verdict, risk and gaps are unchanged. */
  lemma ReportIsEmptyOrFalse(normalize: Normalizer, config: RuleConfig, a: EvaluationSnapshot, b: EvaluationSnapshot, p: PriorEvaluation)
    requires Evaluation(normalize, a, config).Finalized? && Evaluation(normalize, b, config).Finalized?
    requires SameFacts(a, b) && b.prior == Some(p) && p.result == Evaluation(normalize, a, config).result
    ensures var (x, y) := (p.result, Evaluation(normalize, b, config).result);
      && |x.trace| <= TRACE_LIMIT
      && var before, after := Collides(x.trace, x.dependencies), Collides(Renumbered(b.evaluationId, x.trace), x.dependencies);
         && (!before && !after ==> y.changedFactRules == {})
         && (before != after ==> y.changedFactRules == {F12})
  {
    hide Evaluation, Collides, Collisions, SameFacts, Renumbered;
    ReportIsExact(normalize, config, a, b, p);
    CollisionsMean(p.result.trace, p.result.dependencies);
    CollisionsMean(Renumbered(b.evaluationId, p.result.trace), p.result.dependencies);
  }
}
