/** Every finished trace has the structure the validator demands. */
module GateTrace {
  import opened Canonical
  import opened Changes
  import opened Gate
  import opened GateEvidence
  import opened GateProperties
  import opened GateRules
  import opened GateVerdict
  import opened Json
  import opened Models
  import opened Ordering
  import opened Sequences
  import opened Traces

  // ----- the order of rules in a trace

  function Rank(r: RuleName): nat {
    match r
    case F01 => 1 case F02 => 2 case F03 => 3 case F04 => 4 case F05 => 5 case F06 => 6
    case F07 => 7 case F08 => 8 case F09 => 9 case F10 => 10 case F11 => 11
    case R1 => 12 case R2 => 12 case R3 => 12 case R4 => 12
    case F12 => 13
    case Other(_) => 0
  }

  /** Rules of ranks above lo and at most hi, strictly climbing except for repeated formulas. */
  ghost predicate Climbs(rs: seq<RuleName>, lo: nat, hi: nat) {
    && (forall i | 0 <= i < |rs| :: lo < Rank(rs[i]) <= hi)
    && (forall i, j | 0 <= i < j < |rs| :: Rank(rs[i]) < Rank(rs[j]) || (rs[i] == F10 && rs[j] == F10))
  }

  lemma ClimbsConcat(a: seq<RuleName>, b: seq<RuleName>, lo: nat, mid: nat, hi: nat)
    requires Climbs(a, lo, mid) && Climbs(b, mid, hi) && lo <= mid <= hi
    ensures Climbs(a + b, lo, hi)
  {
    hide Rank;
  }

  /** Formula rules in adjacent pairs. */
  predicate PairedRules(rs: seq<RuleName>) {
    var n := |rs|;
    if n == 0 then true
    else if rs[n - 1] != F10 then PairedRules(rs[..n - 1])
    else n > 1 && rs[n - 2] == F10 && PairedRules(rs[..n - 2])
  }

  lemma {:induction false} PairedConcat(a: seq<RuleName>, b: seq<RuleName>)
    requires PairedRules(a) && PairedRules(b)
    ensures PairedRules(a + b)
    decreases |b|
  {
    var n := |b|;
    var c := a + b;
    if n == 0 {
      assert c == a;
    } else if b[n - 1] != F10 {
      PairedConcat(a, b[..n - 1]);
      assert c[..|c| - 1] == a + b[..n - 1];
    } else {
      PairedConcat(a, b[..n - 2]);
      assert c[..|c| - 2] == a + b[..n - 2];
    }
  }

  lemma {:induction false} NoFormulas(rs: seq<RuleName>)
    requires forall i | 0 <= i < |rs| :: rs[i] != F10
    ensures PairedRules(rs)
  {
    if rs != [] { NoFormulas(rs[..|rs| - 1]); }
  }

  function RuleOfStep(t: TraceStep): RuleName { t.rule }
  function RuleOfDescriptor(d: Descriptor): RuleName { d.rule }

  lemma {:induction false} PairedByRules(trace: seq<TraceStep>)
    ensures Paired(trace) <==> PairedRules(Each(RuleOfStep, trace))
    decreases |trace|
  {
    var n, rs := |trace|, Each(RuleOfStep, trace);
    if n > 0 {
      assert rs[..n - 1] == Each(RuleOfStep, trace[..n - 1]);
      PairedByRules(trace[..n - 1]);
      if n > 1 {
        assert rs[..n - 2] == Each(RuleOfStep, trace[..n - 2]);
        PairedByRules(trace[..n - 2]);
      }
    }
  }

  // ----- the descriptors

  /** A descriptor of a fact rule with a pole of its family. */
  predicate WellFormed(d: Descriptor) {
    AllowedPole(d.family, d.pole) && 1 <= Rank(d.rule) <= 11
  }

  /** A stretch of descriptors between two ranks, with its formulas paired. */
  ghost predicate Stretch(ds: seq<Descriptor>, lo: nat, hi: nat) {
    && (forall i | 0 <= i < |ds| :: WellFormed(ds[i]))
    && Climbs(Each(RuleOfDescriptor, ds), lo, hi)
    && PairedRules(Each(RuleOfDescriptor, ds))
  }

  lemma StretchConcat(a: seq<Descriptor>, b: seq<Descriptor>, lo: nat, mid: nat, hi: nat)
    requires Stretch(a, lo, mid) && Stretch(b, mid, hi) && lo <= mid <= hi
    ensures Stretch(a + b, lo, hi)
  {
    hide WellFormed, Climbs, PairedRules;
    var x, y := Each(RuleOfDescriptor, a), Each(RuleOfDescriptor, b);
    assert Each(RuleOfDescriptor, a + b) == x + y;
    ClimbsConcat(x, y, lo, mid, hi);
    PairedConcat(x, y);
  }

  lemma OneStretch(ds: seq<Descriptor>, rule: RuleName, k: nat)
    requires AtMostOne(ds, rule) && Rank(rule) == k + 1 && k < 9
    ensures Stretch(ds, k, k + 1)
  {
    NoFormulas(Each(RuleOfDescriptor, ds));
  }

  lemma {:induction false} FormulaStretch(ds: seq<DependencyRef>)
    ensures Stretch(Gather(FormulaSteps, ds), 9, 10)
    ensures |Gather(FormulaSteps, ds)| == 2 * |ds|
  {
    hide FormulaStep;
    if ds != [] {
      var front, last := ds[..|ds| - 1], ds[|ds| - 1];
      FormulaStretch(front);
      FormulaPair(last);
      AppendFormulas(Gather(FormulaSteps, front), FormulaSteps(last));
    } else {
      EmptyStretch();
    }
  }

  lemma EmptyStretch()
    ensures Stretch([], 9, 10)
  {}

  lemma FormulaPair(d: DependencyRef)
    ensures |FormulaSteps(d)| == 2
    ensures forall i | 0 <= i < 2 :: FormulaSteps(d)[i].rule == F10 && WellFormed(FormulaSteps(d)[i])
  {}

  lemma FormulasClimb(x: seq<RuleName>)
    requires Climbs(x, 9, 10)
    ensures Climbs(x + [F10, F10], 9, 10)
  {
    var y := x + [F10, F10];
    forall i | 0 <= i < |y| ensures y[i] == F10 {
      assert i < |x| ==> 9 < Rank(x[i]) <= 10;
    }
  }

  lemma AppendFormulas(a: seq<Descriptor>, b: seq<Descriptor>)
    requires Stretch(a, 9, 10) && |b| == 2 && forall i | 0 <= i < 2 :: b[i].rule == F10 && WellFormed(b[i])
    ensures Stretch(a + b, 9, 10)
  {
    hide WellFormed, PairedRules, Climbs;
    var x, y := Each(RuleOfDescriptor, a), Each(RuleOfDescriptor, b);
    assert y == [F10, F10];
    assert Each(RuleOfDescriptor, a + b) == x + [F10, F10];
    FormulasClimb(x);
    PairOfFormulas();
    PairedConcat(x, [F10, F10]);
  }

  lemma PairOfFormulas()
    ensures PairedRules([F10, F10])
  {
    assert [F10, F10][..0] == [];
  }

  // ----- the steps of an evaluation

  lemma EarlySteps(s: EvaluationSnapshot, c: RuleConfig, id: Option<string>) returns (f: Findings)
    ensures f == BindFindings(s, c, id).Then(PolicyPart(s)).Then(ExclusionPart(s)).Then(RetrievalPart(s, c))
                   .Then(IdentityFindings(s.proposal, NearOnes(s, c))).Then(ApprovalPart(s, c))
    ensures Stretch(f.steps, 0, 5) && |f.steps| <= 5
  {
    hide BindFindings, ScopeFindings, ExclusionFindings, RetrievalFindings, IdentityFindings, ApprovalFindings, AtMostOne, Stretch;
    var b, p, e, r := BindFindings(s, c, id), PolicyPart(s), ExclusionPart(s), RetrievalPart(s, c);
    var i, a := IdentityFindings(s.proposal, NearOnes(s, c)), ApprovalPart(s, c);
    OneStretch(b.steps, F01, 0);
    OneStretch(p.steps, F02, 1);
    OneStretch(e.steps, F03, 2);
    OneStretch(r.steps, F04, 3);
    OneStretch(i.steps, F05, 4);
    StretchConcat(b.steps, p.steps, 0, 1, 2);
    StretchConcat(b.steps + p.steps, e.steps, 0, 2, 3);
    StretchConcat(b.steps + p.steps + e.steps, r.steps, 0, 3, 4);
    StretchConcat(b.steps + p.steps + e.steps + r.steps, i.steps, 0, 4, 5);
    SingleSizes(b.steps, p.steps, e.steps, r.steps, i.steps);
    f := b.Then(p).Then(e).Then(r).Then(i).Then(a);
    assert f.steps == b.steps + p.steps + e.steps + r.steps + i.steps;
  }

  lemma SingleSizes(b: seq<Descriptor>, p: seq<Descriptor>, e: seq<Descriptor>, r: seq<Descriptor>, i: seq<Descriptor>)
    requires AtMostOne(b, F01) && AtMostOne(p, F02) && AtMostOne(e, F03) && AtMostOne(r, F04) && AtMostOne(i, F05)
    ensures |b + p + e + r + i| <= 5
  {}

  lemma FactSteps(s: EvaluationSnapshot, c: RuleConfig, id: Option<string>)
    ensures Stretch(FactFindings(s, c, id).steps, 0, 10)
    ensures |FactFindings(s, c, id).steps| <= 9 + 2 * |s.dependencies|
  {
    hide BindFindings, ScopeFindings, ExclusionFindings, RetrievalFindings, IdentityFindings, ApprovalFindings, ConflictFindings,
      EvidenceFindings, ConsequenceFindings, CapabilityFindings, Sort, Gather, AtMostOne, Stretch;
    var x := EarlySteps(s, c, id);
    var k, v, q, h, d := ConflictPart(s, c), EvidencePart(s), ConsequencePart(s, c), CapabilityPart(s), DependencyPart(s);
    OneStretch(k.steps, F06, 5);
    OneStretch(v.steps, F07, 6);
    OneStretch(q.steps, F08, 7);
    OneStretch(h.steps, F09, 8);
    FormulaStretch(SortedDependencies(s));
    SortMembers(DependencyKey, s.dependencies);
    StretchConcat(x.steps, k.steps, 0, 5, 6);
    StretchConcat(x.steps + k.steps, v.steps, 0, 6, 7);
    StretchConcat(x.steps + k.steps + v.steps, q.steps, 0, 7, 8);
    StretchConcat(x.steps + k.steps + v.steps + q.steps, h.steps, 0, 8, 9);
    StretchConcat(x.steps + k.steps + v.steps + q.steps + h.steps, d.steps, 0, 9, 10);
    LateSizes(x.steps, k.steps, v.steps, q.steps, h.steps, d.steps);
  }

  lemma LateSizes(x: seq<Descriptor>, k: seq<Descriptor>, v: seq<Descriptor>, q: seq<Descriptor>, h: seq<Descriptor>, d: seq<Descriptor>)
    requires AtMostOne(k, F06) && AtMostOne(v, F07) && AtMostOne(q, F08) && AtMostOne(h, F09)
    ensures |x + k + v + q + h + d| <= |x| + 4 + |d|
  {}

  lemma AggregateStretch(p: Proposal, f: Findings)
    ensures Stretch(AggregateFindings(p, f).steps, 10, 11) && |AggregateFindings(p, f).steps| == 1
  {
    hide Triggered;
    NoFormulas(Each(RuleOfDescriptor, AggregateFindings(p, f).steps));
  }

  /** The steps before the reducer climb through the fact rules; there are at most ten of them
      besides the pairs of the dependencies. */
  lemma AllSteps(s: EvaluationSnapshot, c: RuleConfig, id: Option<string>)
    ensures Stretch(AllFindings(s, c, id).steps, 0, 11)
    ensures 1 <= |AllFindings(s, c, id).steps| <= 10 + 2 * |s.dependencies|
  {
    hide FactFindings, AggregateFindings, Stretch;
    FactSteps(s, c, id);
    AggregateStretch(s.proposal, FactFindings(s, c, id));
    StretchConcat(FactFindings(s, c, id).steps, AggregateFindings(s.proposal, FactFindings(s, c, id)).steps, 0, 10, 11);
  }

  lemma LimitOfJudgement(s: EvaluationSnapshot, config: RuleConfig, id: Option<string>)
    requires |s.dependencies| <= 43
    ensures Judgement(s, config, id) != Stopped(TraceLimitExceeded)
  {
    hide FactStop, AllFindings, Reduce, Finish;
    AllSteps(s, config, id);
    FactCodes(s, config);
  }

  /** With at most 43 dependencies the step limit is never hit; a draft has at most 32. */
  lemma LimitNeverHit(normalize: Normalizer, s: EvaluationSnapshot, config: RuleConfig)
    requires |s.dependencies| <= 43
    ensures var outcome := Evaluation(normalize, s, config);
      outcome.Blocked? ==> outcome.blocked.error != TraceLimitExceeded
  {
    hide CanonicalSnapshot, InputStop, Judgement;
    var c := CanonicalSnapshot(s);
    InputCodes(normalize, c, config);
    SameSize(s);
    LimitOfJudgement(c, config, PriorId(c));
  }

  lemma SameSize(s: EvaluationSnapshot)
    ensures |CanonicalSnapshot(s).dependencies| == |s.dependencies|
  {
    hide Sort;
    SortMembers(DependencyKey, s.dependencies);
  }

  // ----- the finished trace

  lemma FirstStep(s: EvaluationSnapshot, c: RuleConfig, id: Option<string>)
    ensures AllFindings(s, c, id).steps != [] && AllFindings(s, c, id).steps[0].rule == F01
  {
    hide ScopeFindings, ExclusionFindings, RetrievalFindings, IdentityFindings, ApprovalFindings, ConflictFindings,
      EvidenceFindings, ConsequenceFindings, CapabilityFindings, DependencyFindings, AggregateFindings;
    assert BindFindings(s, c, id).steps[0].rule == F01;
  }

  lemma ReductionBinds(s: EvaluationSnapshot, config: RuleConfig, f: Findings, red: Reduction)
    requires Reduce(s, config, f) == Some(red)
    ensures F01 in red.decisive && red.rule.IsReducer()
  {
    hide AllClear, RulesOf, GapSet;
  }

  lemma DecisiveMembers(steps: seq<TraceStep>, rules: set<RuleName>)
    ensures forall d | d in DecisiveIds(steps, rules) :: exists k :: 0 <= k < |steps| && steps[k].stepId == d
  {
    FilterMembers(InRules(rules), steps);
    EachMembers(StepIdOf, Filter(InRules(rules), steps));
    forall d | d in DecisiveIds(steps, rules) ensures exists k :: 0 <= k < |steps| && steps[k].stepId == d {
      var t :| t in Filter(InRules(rules), steps) && d == StepIdOf(t);
      var k :| 0 <= k < |steps| && steps[k] == t;
    }
  }

  /** A trace assembled from well-formed descriptors, a reducer and the conclusion. */
  ghost predicate Assembled(s: EvaluationSnapshot, f: Findings, red: Reduction) {
    && s.evaluationId != "" && |f.steps| + 2 <= TRACE_LIMIT && f.steps != []
    && Stretch(f.steps, 0, 11)
    && f.steps[0].rule == F01 && F01 in red.decisive && red.rule.IsReducer()
  }

  lemma OperatorAccepted(s: EvaluationSnapshot, f: Findings, red: Reduction, i: nat)
    requires Assembled(s, f, red) && i < |f.steps|
    ensures StepAccepted(s.evaluationId, FullTrace(s, f, red), i, false)
  {
    hide StepId, Sort, AllowedPole, Climbs, PairedRules, DecisiveIds, SortedDependencies, Each;
    assert WellFormed(f.steps[i]);
  }

  lemma ReducerAccepted(s: EvaluationSnapshot, f: Findings, red: Reduction)
    requires Assembled(s, f, red)
    ensures StepAccepted(s.evaluationId, FullTrace(s, f, red), |f.steps|, false)
  {
    hide StepId, Sort, Stretch, DecisiveIds, SortedDependencies, Each;
    var steps := Numbered(s.evaluationId, f.steps);
    DecisiveStep(steps, red.decisive, 0);
    DecisiveMembers(steps, red.decisive);
    var trace := FullTrace(s, f, red);
    forall d | d in DecisiveIds(steps, red.decisive) ensures exists k | 0 <= k < |f.steps| :: trace[k].stepId == d {
      var k :| 0 <= k < |steps| && steps[k].stepId == d;
      assert trace[k] == steps[k];
    }
  }

  lemma BecauseAccepted(s: EvaluationSnapshot, f: Findings, red: Reduction)
    requires Assembled(s, f, red)
    ensures StepAccepted(s.evaluationId, FullTrace(s, f, red), |f.steps| + 1, false)
  {
    hide StepId, Sort, Stretch, DecisiveIds, SortedDependencies, Each;
  }

  lemma TraceRules(s: EvaluationSnapshot, f: Findings, red: Reduction)
    requires Assembled(s, f, red)
    ensures Each(RuleOfStep, FullTrace(s, f, red)) == Each(RuleOfDescriptor, f.steps) + [red.rule, F12]
  {
    hide StepId, Sort, Stretch, DecisiveIds, SortedDependencies;
  }

  lemma TraceOrder(s: EvaluationSnapshot, f: Findings, red: Reduction)
    requires Assembled(s, f, red)
    ensures RulesOnce(FullTrace(s, f, red)) && Paired(FullTrace(s, f, red))
  {
    hide FullTrace, PairedRules, Paired;
    var trace := FullTrace(s, f, red);
    var rs := Each(RuleOfDescriptor, f.steps);
    TraceRules(s, f, red);
    assert Climbs([red.rule, F12], 11, 13);
    ClimbsConcat(rs, [red.rule, F12], 0, 11, 13);
    NoFormulas([red.rule, F12]);
    PairedConcat(rs, [red.rule, F12]);
    PairedByRules(trace);
    ClimbingRulesOnce(trace);
  }

  lemma ClimbingRulesOnce(trace: seq<TraceStep>)
    requires Climbs(Each(RuleOfStep, trace), 0, 13)
    ensures RulesOnce(trace)
  {
    hide Rank;
    var rs := Each(RuleOfStep, trace);
    forall i, j | 0 <= i < j < |trace| && trace[i].rule == trace[j].rule ensures trace[i].rule == F10 {
      assert rs[i] == rs[j];
    }
  }

  lemma AssembledAccepted(s: EvaluationSnapshot, f: Findings, red: Reduction)
    requires Assembled(s, f, red)
    ensures var trace := FullTrace(s, f, red);
      TraceAccepted(s.evaluationId, trace, Some(trace[|trace| - 1].stepId), false)
  {
    hide StepAccepted, RulesOnce, Paired, Stretch, StepId, DecisiveIds, SortedDependencies;
    var trace := FullTrace(s, f, red);
    forall i | 0 <= i < |trace| ensures StepAccepted(s.evaluationId, trace, i, false) {
      if i < |f.steps| {
        OperatorAccepted(s, f, red, i);
      } else if i == |f.steps| {
        ReducerAccepted(s, f, red);
      } else {
        BecauseAccepted(s, f, red);
      }
    }
    TraceOrder(s, f, red);
  }

  lemma FinishedAssembled(c: EvaluationSnapshot, config: RuleConfig, f: Findings, red: Reduction, r: CheckResult)
    requires FinishedAs(c, config, f, red, r)
    ensures Assembled(c, f, red)
  {
    hide AllFindings, FactStop, ConfigAccepted, Thresholds, Reduce, Finish, Stretch;
    AllSteps(c, config, PriorId(c));
    FirstStep(c, config, PriorId(c));
    ReductionBinds(c, config, f, red);
  }

  lemma FinishedFields(c: EvaluationSnapshot, config: RuleConfig, f: Findings, red: Reduction, r: CheckResult)
    requires FinishedAs(c, config, f, red, r)
    ensures |f.steps| + 2 <= TRACE_LIMIT && r.trace == FullTrace(c, f, red)
    ensures r.evaluationId == c.evaluationId && r.becauseStepId == r.trace[|r.trace| - 1].stepId
    ensures r.profileVersion == c.profileVersion && r.dependencies == SortedDependencies(c)
    ensures r.traceDigest == ResultDigest(r)
  {
    hide AllFindings, FactStop, ConfigAccepted, Thresholds, Reduce, FullTrace, SortedDependencies, Warnings;
  }

  /** Every finished trace is accepted by the validator. */
  lemma FinishedTraceAccepted(normalize: Normalizer, s: EvaluationSnapshot, config: RuleConfig)
    requires Evaluation(normalize, s, config).Finalized?
    ensures var r := Evaluation(normalize, s, config).result;
      TraceAccepted(r.evaluationId, r.trace, Some(r.becauseStepId), false)
  {
    hide Evaluation, FinishedAs, Assembled, TraceAccepted, CanonicalSnapshot, InputStop, FullTrace;
    var c, f, red := Finished(normalize, s, config);
    var r := Evaluation(normalize, s, config).result;
    FinishedAssembled(c, config, f, red, r);
    FinishedFields(c, config, f, red, r);
    AssembledAccepted(c, f, red);
  }

  // ----- the validator on whole results

  ghost predicate KnownRules(gs: seq<EvidenceGap>) { forall g | g in gs :: !g.resolutionRule.Other? }

  lemma {:induction false} GatherKnown<T>(f: T -> seq<EvidenceGap>, s: seq<T>)
    requires forall x :: KnownRules(f(x))
    ensures KnownRules(Gather(f, s))
  {
    if s != [] { GatherKnown(f, s[..|s| - 1]); }
  }

  lemma PrecedentGapsKnown(s: EvaluationSnapshot, c: RuleConfig)
    ensures KnownRules(PolicyPart(s).gaps) && KnownRules(RetrievalPart(s, c).gaps)
    ensures KnownRules(ApprovalPart(s, c).gaps) && KnownRules(ConflictPart(s, c).gaps)
  {
    hide AllowRules, DenyRules, Approved, Qualifying, Conflicting, Each, Gather, Sort, RetrievalStep,
      PolicyGap, TargetGap, SimilarityGap, ApprovalGap, ConflictGap;
    GatherKnown(SimilarityGaps, SortedPrecedents(s));
  }

  lemma ConsequenceGapsKnown(s: EvaluationSnapshot, c: RuleConfig)
    ensures KnownRules(ConsequencePart(s, c).gaps)
  {
    hide Approved, Reports, MissingIds, Gather, IsMore, ConsequenceStep, ConsequenceRequired, DivergenceGap, ObservationGap, OutcomeGap;
    GatherKnown(DivergenceGaps(c), Reports(Approved(s, c)));
    GatherKnown(MissingGaps, MissingIds(Approved(s, c)));
  }

  lemma FactGapsKnown(s: EvaluationSnapshot)
    ensures KnownRules(CapabilityPart(s).gaps) && KnownRules(DependencyPart(s).gaps)
  {
    hide Gather, Sort, RequiredCapabilities, StateOf, SomeInState, Each, Complete, FormulaStep,
      CapabilityIdentityGap, CapabilityProofGap, CapabilityStateGap, DependencyStateGap, DependencyProofGap;
    GatherKnown(CapabilityGaps(s.capabilities), RequiredCapabilities(AllowRules(s)));
    GatherKnown(DependencyGaps, SortedDependencies(s));
  }

  /** Some missing requirement names no rule that would resolve it. */
  ghost predicate UnresolvableRequirement(s: EvaluationSnapshot) {
    exists q :: Demands(s, q) && !Evidenced(s, q) && q.resolutionRule == Other("")
  }

  lemma EvidenceGapsMean(s: EvaluationSnapshot)
    ensures (exists g :: g in EvidencePart(s).gaps && g.resolutionRule == Other("")) <==> UnresolvableRequirement(s)
  {
    hide Gather, Sort, Requirements, Satisfied, Meets, Each, Demands, RequirementGap;
    var refs := Sort(RefKey, s.proposal.evidenceRefs);
    RequirementMembers(s);
    forall q ensures Satisfied(refs, q) <==> Evidenced(s, q) { SatisfiedExactly(s.proposal.evidenceRefs, q); }
    GatherMembers(RequirementGaps(refs), Requirements(s));
    if q :| Demands(s, q) && !Evidenced(s, q) && q.resolutionRule == Other("") {
      assert RequirementGap(q) in RequirementGaps(refs)(q);
    }
  }

  lemma GapRules(s: EvaluationSnapshot, c: RuleConfig, id: Option<string>)
    ensures (exists g :: g in FactFindings(s, c, id).gaps && g.resolutionRule == Other("")) <==> UnresolvableRequirement(s)
  {
    hide FactFindings, PolicyPart, RetrievalPart, ApprovalPart, ConflictPart, EvidencePart, ConsequencePart, CapabilityPart,
      DependencyPart, UnresolvableRequirement;
    ListParts(s, c, id);
    PrecedentGapsKnown(s, c);
    ConsequenceGapsKnown(s, c);
    FactGapsKnown(s);
    EvidenceGapsMean(s);
    if g :| g in EvidencePart(s).gaps && g.resolutionRule == Other("") { assert g in FactFindings(s, c, id).gaps; }
  }

  lemma FinishedGaps(c: EvaluationSnapshot, config: RuleConfig, f: Findings, red: Reduction, r: CheckResult)
    requires FinishedAs(c, config, f, red, r)
    ensures GapsAccepted(r.gaps) <==> !(r.verdict == MAYBE && UnresolvableRequirement(c))
  {
    hide FinishedAs, FactFindings, UnresolvableRequirement, AggregateFindings;
    FinishedFindings(c, config, f, red, r);
    VerdictByLists(c, config, f, red, r);
    AggregateAddsNothing(c.proposal, FactFindings(c, config, PriorId(c)));
    GapRules(c, config, PriorId(c));
  }

  /** Under MAYBE every requirement that is not met has its gap in the result. */
  lemma UnmetRaisesGap(normalize: Normalizer, s: EvaluationSnapshot, config: RuleConfig, q: EvidenceRequirement)
    requires Evaluation(normalize, s, config).Finalized? && Demands(s, q) && !Evidenced(s, q)
    ensures var r := Evaluation(normalize, s, config).result; r.verdict == MAYBE ==> RequirementGap(q) in r.gaps
  {
    hide Evaluation, FinishedAs, InputStop, CanonicalSnapshot, Demands, Evidenced, FactFindings, AggregateFindings, RequirementGap, EvidencePart,
      PolicyPart, RetrievalPart, ApprovalPart, ConflictPart, ConsequencePart, CapabilityPart, DependencyPart;
    var c, f, red := Finished(normalize, s, config);
    var r := Evaluation(normalize, s, config).result;
    FinishedFindings(c, config, f, red, r);
    VerdictByLists(c, config, f, red, r);
    AggregateAddsNothing(c.proposal, FactFindings(c, config, PriorId(c)));
    ListParts(c, config, PriorId(c));
    CanonicalNeeds(s);
    CanonicalRows(s);
    UnmetGap(c, q);
  }

  lemma UnmetGap(c: EvaluationSnapshot, q: EvidenceRequirement)
    requires Demands(c, q) && !Evidenced(c, q)
    ensures RequirementGap(q) in EvidencePart(c).gaps
  {
    hide Gather, Sort, Requirements, Satisfied, Meets, Demands, RequirementGap;
    var refs := Sort(RefKey, c.proposal.evidenceRefs);
    RequirementMembers(c);
    SatisfiedExactly(c.proposal.evidenceRefs, q);
    GatherMembers(RequirementGaps(refs), Requirements(c));
    assert RequirementGap(q) in RequirementGaps(refs)(q);
  }

  lemma FinishedConditional(c: EvaluationSnapshot, config: RuleConfig, f: Findings, red: Reduction, r: CheckResult)
    requires FinishedAs(c, config, f, red, r)
    ensures r.verdict == IFF ==> exists d | d in r.dependencies :: d.state == StateUnresolved
  {
    FinishedFields(c, config, f, red, r);
    FinishedFindings(c, config, f, red, r);
    FinishedConfig(c, config, f, red, r);
    VerdictByLists(c, config, f, red, r);
    hide FinishedAs, FactFindings, Sort, AggregateFindings, FullTrace, Denied, Unsettled;
    AggregateAddsNothing(c.proposal, FactFindings(c, config, PriorId(c)));
    ListsMeaning(c, config, PriorId(c));
    SortMembers(DependencyKey, c.dependencies);
    if r.verdict == IFF {
      var d :| DependencyIn(c, d, StateUnresolved) && Complete(d);
      assert d in r.dependencies;
    }
  }

  lemma FinishedConfig(c: EvaluationSnapshot, config: RuleConfig, f: Findings, red: Reduction, r: CheckResult)
    requires FinishedAs(c, config, f, red, r)
    ensures Thresholds(config) && !DuplicateCapability(c.capabilities)
  {
    hide AllFindings, Thresholds, Reduce, Finish, DuplicateCapability, ReportBound, Reports;
  }

  lemma ProfileStated(normalize: Normalizer, c: EvaluationSnapshot, config: RuleConfig)
    requires InputStop(normalize, c, config).None?
    ensures c.profileVersion != Some("")
  {
    hide ConfigAccepted, SnapshotStop, ProposalStop, PolicyDigest, ExclusionsStop, SameDependencyIds, BindingStop;
  }

  /** A finalized answer is bound to its snapshot. */
  lemma AnswerIsBound(normalize: Normalizer, s: EvaluationSnapshot, config: RuleConfig)
    requires Evaluation(normalize, s, config).Finalized?
    ensures var r := Evaluation(normalize, s, config).result;
      && r.evaluationId == s.evaluationId && r.priorEvaluationId == PriorId(s) && r.profileVersion == s.profileVersion
      && r.inputSnapshotDigest == s.snapshotDigest && r.policyDigest == s.policy.policyDigest
      && r.ruleConfigDigest == config.digest && r.evaluatorVersion == config.evaluatorVersion
      && r.traceDigest == ResultDigest(r) && r.changedFactRules == ChangedRules(s.prior, r.trace, r.gaps)
  {
    hide InputStop, FactStop, AllFindings, Reduce, FullTrace, BlockedOf, Sort, CanonicalRules, CanonicalProposal, ChangedRules, Warnings;
  }

  lemma OperatorRules(normalize: Normalizer, s: EvaluationSnapshot, config: RuleConfig)
    requires Evaluation(normalize, s, config).Finalized?
    ensures forall t | t in Evaluation(normalize, s, config).result.trace && t.OperatorStep? :: FactRule(t.rule)
  {
    hide Evaluation, FinishedAs, CanonicalSnapshot, InputStop, Climbs, PairedRules, AllowedPole, StepId, DecisiveIds, SortedDependencies, Sort;
    var c, f, red := Finished(normalize, s, config);
    var r := Evaluation(normalize, s, config).result;
    FinishedAssembled(c, config, f, red, r);
    FinishedFields(c, config, f, red, r);
    forall t | t in r.trace && t.OperatorStep? ensures FactRule(t.rule) {
      var i :| 0 <= i < |r.trace| && r.trace[i] == t;
      if i < |f.steps| { assert WellFormed(f.steps[i]); }
    }
  }

  lemma ProjectedRules(trace: seq<TraceStep>, gaps: set<EvidenceGap>, r: RuleName)
    ensures Projections(trace, gaps, r) == [] <==> !exists t :: t in trace && t.OperatorStep? && t.rule == r
  {
    hide ProjectionOf, Gather;
    GatherEmpty(ProjectionsAt(trace, gaps, r), trace);
  }

  /** Against steps of fact rules, the changed rules are fact rules exactly when the operator
      steps of the prior trace are. */
  lemma ChangedFactRules(p: PriorEvaluation, trace: seq<TraceStep>, gaps: set<EvidenceGap>)
    requires forall t | t in trace && t.OperatorStep? :: FactRule(t.rule)
    ensures forall t | t in p.result.trace && t.OperatorStep? && !FactRule(t.rule) :: t.rule in ChangedRules(Some(p), trace, gaps)
    ensures (forall q | q in ChangedRules(Some(p), trace, gaps) :: FactRule(q)) <==>
      forall t | t in p.result.trace && t.OperatorStep? :: FactRule(t.rule)
  {
    hide FactRule, Projections;
    var before := p.result.trace;
    forall r ensures Projections(before, p.result.gaps, r) == [] <==> !exists t :: t in before && t.OperatorStep? && t.rule == r {
      ProjectedRules(before, p.result.gaps, r);
    }
    forall r ensures Projections(trace, gaps, r) == [] <==> !exists t :: t in trace && t.OperatorStep? && t.rule == r {
      ProjectedRules(trace, gaps, r);
    }
    forall t | t in before && t.OperatorStep? && !FactRule(t.rule) ensures t.rule in ChangedRules(Some(p), trace, gaps) {
      assert t in before + trace;
    }
  }

  /** Only fact rules have operator steps in the prior trace. */
  ghost predicate PriorOfFactRules(s: EvaluationSnapshot) {
    s.prior.Some? ==> forall t | t in s.prior.value.result.trace && t.OperatorStep? :: FactRule(t.rule)
  }

  lemma ReportedFactRules(normalize: Normalizer, s: EvaluationSnapshot, config: RuleConfig)
    requires Evaluation(normalize, s, config).Finalized?
    ensures (forall q | q in Evaluation(normalize, s, config).result.changedFactRules :: FactRule(q)) <==> PriorOfFactRules(s)
  {
    hide Evaluation, FactRule;
    AnswerIsBound(normalize, s, config);
    OperatorRules(normalize, s, config);
    var r := Evaluation(normalize, s, config).result;
    if s.prior.Some? { ChangedFactRules(s.prior.value, r.trace, r.gaps); }
  }

  /** A rule that is no fact rule and has an operator step in the prior is reported as changed. */
  lemma ForeignIsReported(normalize: Normalizer, s: EvaluationSnapshot, config: RuleConfig, t: TraceStep)
    requires Evaluation(normalize, s, config).Finalized? && s.prior.Some?
    requires t in s.prior.value.result.trace && t.OperatorStep? && !FactRule(t.rule)
    ensures t.rule in Evaluation(normalize, s, config).result.changedFactRules
  {
    hide Evaluation, FactRule;
    AnswerIsBound(normalize, s, config);
    OperatorRules(normalize, s, config);
    var r := Evaluation(normalize, s, config).result;
    ChangedFactRules(s.prior.value, r.trace, r.gaps);
  }

  /** A requirement that nothing resolves leaves the answer MAYBE unless the gate refuses. */
  lemma UnresolvableAsks(normalize: Normalizer, s: EvaluationSnapshot, config: RuleConfig)
    requires Evaluation(normalize, s, config).Finalized? && UnresolvableRequirement(s)
    ensures Evaluation(normalize, s, config).result.verdict == MAYBE <==> !Denied(s)
  {
    hide Evaluation, Denied, Demands, Evidenced, PrecedentsOpen, ConsequencesOpen, Grants, Needs, Declares, DependencyIn, Complete;
    VerdictIsDeclared(normalize, s, config);
    assert Unsettled(s);
  }

  /** The gate's own result passes the validator exactly when the gate refuses or every missing
      requirement names a resolving rule, and only fact rules have operator steps in the prior. */
  lemma ResultAcceptedExactly(normalize: Normalizer, s: EvaluationSnapshot, config: RuleConfig)
    requires Evaluation(normalize, s, config).Finalized?
    ensures ResultAccepted(Evaluation(normalize, s, config).result) <==>
      (Denied(s) || !UnresolvableRequirement(s)) && PriorOfFactRules(s)
  {
    hide Evaluation, FinishedAs, TraceAccepted, CanonicalSnapshot, InputStop, FullTrace, GapsAccepted, UnresolvableRequirement, ResultDigest,
      FactRule, Denied, PriorOfFactRules;
    var c, f, red := Finished(normalize, s, config);
    var r := Evaluation(normalize, s, config).result;
    FinishedTraceAccepted(normalize, s, config);
    FinishedFields(c, config, f, red, r);
    FinishedGaps(c, config, f, red, r);
    FinishedConditional(c, config, f, red, r);
    ProfileStated(normalize, c, config);
    SameUnresolvable(s);
    ReportedFactRules(normalize, s, config);
    if UnresolvableRequirement(s) { UnresolvableAsks(normalize, s, config); }
  }

  lemma SameUnresolvable(s: EvaluationSnapshot)
    ensures UnresolvableRequirement(CanonicalSnapshot(s)) <==> UnresolvableRequirement(s)
  {
    hide CanonicalSnapshot, Demands, Evidenced;
    CanonicalNeeds(s);
    CanonicalRows(s);
  }

  /** Every blocked answer passes the validator of blocked results. */
  lemma BlockedResultAccepted(normalize: Normalizer, s: EvaluationSnapshot, config: RuleConfig)
    requires Evaluation(normalize, s, config).Blocked?
    ensures BlockedAccepted(Evaluation(normalize, s, config).blocked)
  {
    hide CanonicalSnapshot, InputStop, Judgement, BlockedAccepted;
    var c := CanonicalSnapshot(s);
    forall stop, id ensures BlockedAccepted(BlockedOf(c, config, stop, id)) { BlockedOfAccepted(c, config, stop, id); }
  }

  lemma BlockedOfAccepted(c: EvaluationSnapshot, config: RuleConfig, stop: ErrorCode, id: Option<string>)
    ensures BlockedAccepted(BlockedOf(c, config, stop, id))
  {
    hide StepId;
    var b := BlockedOf(c, config, stop, id);
    assert |"blocked-evaluation"| == 18;
    assert StepAccepted(b.evaluationId, b.trace, 0, true);
    assert Paired(b.trace) by { assert b.trace[..0] == []; }
  }
}
