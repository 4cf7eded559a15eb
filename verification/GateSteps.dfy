/** The steps of a finished trace, rule by rule. */
module GateSteps {
  import opened Canonical
  import opened Changes
  import opened Gate
  import opened GateFields
  import opened GateProperties
  import opened GateRules
  import opened GateTrace
  import opened GateVerdict
  import opened Json
  import opened Models
  import opened Ordering
  import opened Sequences
  import opened Traces

  function RuleIs(rule: RuleName): Descriptor -> bool { (d: Descriptor) => d.rule == rule }

  /** A step of the trace shows a descriptor. */
  predicate Shows(t: TraceStep, d: Descriptor) {
    && t.OperatorStep? && t.rule == d.rule && t.family == d.family && t.pole == d.pole && t.subjectRef == d.subjectRef
    && t.objectRefs == d.objectRefs && t.gapRefs == {} && t.fact == d.fact && t.evidenceRefs == Sort(RefKey, d.evidenceRefs)
  }

  ghost predicate AllShow(ts: seq<TraceStep>, ds: seq<Descriptor>) {
    |ts| == |ds| && forall i | 0 <= i < |ts| :: Shows(ts[i], ds[i])
  }

  lemma {:induction false} FilterConcat<T>(p: T -> bool, a: seq<T>, b: seq<T>)
    ensures Filter(p, a + b) == Filter(p, a) + Filter(p, b)
  {
    if b == [] {
      assert a + b == a;
    } else {
      FilterConcat(p, a, b[..|b| - 1]);
      assert (a + b)[..|a + b| - 1] == a + b[..|b| - 1];
    }
  }

  lemma {:induction false} NumberedShows(e: string, ds: seq<Descriptor>, n: nat, rule: RuleName)
    requires n <= |ds| <= TRACE_LIMIT
    ensures AllShow(StepsOf(Numbered(e, ds)[..n], rule), Filter(RuleIs(rule), ds[..n]))
  {
    hide StepId, Sort, AllShow;
    if n > 0 {
      NumberedShows(e, ds, n - 1, rule);
      var t, d := Numbered(e, ds)[n - 1], ds[n - 1];
      assert Shows(t, d);
      FilterStep(OfRule(rule), Numbered(e, ds), n - 1);
      FilterStep(RuleIs(rule), ds, n - 1);
      assert n - 1 + 1 == n;
      ShowNext(StepsOf(Numbered(e, ds)[..n - 1], rule), Filter(RuleIs(rule), ds[..n - 1]), t, d, rule);
    } else {
      LoopStart(Numbered(e, ds));
      LoopStart(ds);
      NothingShown();
    }
  }

  lemma ShowNext(ts: seq<TraceStep>, ds: seq<Descriptor>, t: TraceStep, d: Descriptor, rule: RuleName)
    requires AllShow(ts, ds) && Shows(t, d)
    ensures AllShow(ts + (if OfRule(rule)(t) then [t] else []), ds + (if RuleIs(rule)(d) then [d] else []))
  {
    hide Sort;
  }

  lemma NothingShown()
    ensures AllShow([], [])
  {}

  lemma TraceTail(c: EvaluationSnapshot, f: Findings, red: Reduction) returns (last: seq<TraceStep>)
    requires |f.steps| + 2 <= TRACE_LIMIT
    ensures FullTrace(c, f, red) == Numbered(c.evaluationId, f.steps) + last
    ensures |last| == 2 && last[0].ReducerStep? && last[1].rule == F12
  {
    hide StepId, Sort, DecisiveIds, SortedDependencies, Numbered, Each;
    var t, n := FullTrace(c, f, red), |f.steps|;
    last := [t[n], t[n + 1]];
    assert t == Numbered(c.evaluationId, f.steps) + last;
  }

  lemma FactSteps(c: EvaluationSnapshot, f: Findings, red: Reduction, rule: RuleName)
    requires |f.steps| + 2 <= TRACE_LIMIT && rule != F12
    ensures AllShow(StepsOf(FullTrace(c, f, red), rule), Filter(RuleIs(rule), f.steps))
  {
    hide FullTrace, AllShow, Numbered;
    var last := TraceTail(c, f, red);
    var steps := Numbered(c.evaluationId, f.steps);
    NumberedShows(c.evaluationId, f.steps, |f.steps|, rule);
    assert steps[..|f.steps|] == steps && f.steps[..|f.steps|] == f.steps;
    FilterConcat(OfRule(rule), steps, last);
    LastTwo(last, rule);
    assert StepsOf(FullTrace(c, f, red), rule) == StepsOf(steps, rule) + [] == StepsOf(steps, rule);
  }

  lemma LastTwo(t: seq<TraceStep>, rule: RuleName)
    requires |t| == 2 && t[0].ReducerStep? && t[1].rule == F12 && rule != F12
    ensures StepsOf(t, rule) == []
  {
    FilterEmpty(OfRule(rule), t);
  }

  // ----- the parts of the findings

  ghost predicate OnlyOf(ds: seq<Descriptor>, rule: RuleName) { forall i | 0 <= i < |ds| :: ds[i].rule == rule }

  lemma PartFiltered(ds: seq<Descriptor>, rule: RuleName, other: RuleName)
    requires OnlyOf(ds, rule)
    ensures Filter(RuleIs(other), ds) == if other == rule then ds else []
  {
    if other == rule { FilterAll(RuleIs(other), ds); } else { FilterEmpty(RuleIs(other), ds); }
  }

  lemma {:induction false} FilterAll<T>(p: T -> bool, s: seq<T>)
    requires forall i | 0 <= i < |s| :: p(s[i])
    ensures Filter(p, s) == s
  {
    if s != [] {
      FilterAll(p, s[..|s| - 1]);
      assert s == s[..|s| - 1] + [s[|s| - 1]];
    }
  }

  datatype Part = Part(rule: RuleName, steps: seq<Descriptor>)

  ghost function Flat(parts: seq<Part>): seq<Descriptor> {
    if parts == [] then [] else Flat(parts[..|parts| - 1]) + parts[|parts| - 1].steps
  }

  ghost predicate WellParted(parts: seq<Part>) {
    && (forall i | 0 <= i < |parts| :: OnlyOf(parts[i].steps, parts[i].rule))
    && (forall i, j | 0 <= i < j < |parts| :: parts[i].rule != parts[j].rule)
  }

  lemma FrontParted(parts: seq<Part>)
    requires WellParted(parts) && parts != []
    ensures WellParted(parts[..|parts| - 1]) && OnlyOf(parts[|parts| - 1].steps, parts[|parts| - 1].rule)
    ensures forall i | 0 <= i < |parts| - 1 :: parts[..|parts| - 1][i] == parts[i] && parts[i].rule != parts[|parts| - 1].rule
  {
    hide OnlyOf;
  }

  lemma {:induction false} NoPart(parts: seq<Part>, rule: RuleName)
    requires WellParted(parts) && forall i | 0 <= i < |parts| :: parts[i].rule != rule
    ensures Filter(RuleIs(rule), Flat(parts)) == []
  {
    hide WellParted, OnlyOf, RuleIs;
    if parts != [] {
      var front, last := parts[..|parts| - 1], parts[|parts| - 1];
      FrontParted(parts);
      NoPart(front, rule);
      FilterConcat(RuleIs(rule), Flat(front), last.steps);
      PartFiltered(last.steps, last.rule, rule);
    } else {
      FilterNone(RuleIs(rule));
    }
  }

  lemma {:induction false} OnePart(parts: seq<Part>, k: nat)
    requires WellParted(parts) && k < |parts|
    ensures Filter(RuleIs(parts[k].rule), Flat(parts)) == parts[k].steps
  {
    hide WellParted, OnlyOf, RuleIs, Filter;
    var front, last := parts[..|parts| - 1], parts[|parts| - 1];
    FrontParted(parts);
    FilterConcat(RuleIs(parts[k].rule), Flat(front), last.steps);
    PartFiltered(last.steps, last.rule, parts[k].rule);
    if k < |parts| - 1 { OnePart(front, k); } else { NoPart(front, last.rule); }
  }

  /** The findings of the rules in trace order. */
  ghost function Parts(s: EvaluationSnapshot, c: RuleConfig, id: Option<string>): seq<Part> {
    [Part(F01, BindFindings(s, c, id).steps), Part(F02, PolicyPart(s).steps), Part(F03, ExclusionPart(s).steps),
     Part(F04, RetrievalPart(s, c).steps), Part(F05, IdentityFindings(s.proposal, NearOnes(s, c)).steps),
     Part(F06, ConflictPart(s, c).steps), Part(F07, EvidencePart(s).steps), Part(F08, ConsequencePart(s, c).steps),
     Part(F09, CapabilityPart(s).steps), Part(F10, DependencyPart(s).steps),
     Part(F11, AggregateFindings(s.proposal, FactFindings(s, c, id)).steps)]
  }

  lemma PartsParted(s: EvaluationSnapshot, c: RuleConfig, id: Option<string>)
    ensures WellParted(Parts(s, c, id))
  {
    hide BindFindings, ScopeFindings, ExclusionFindings, RetrievalFindings, IdentityFindings, ConflictFindings, EvidenceFindings,
      ConsequenceFindings, CapabilityFindings, FactFindings, FormulaSteps;
    FormulasOnly(SortedDependencies(s));
    AggregateOnly(s.proposal, FactFindings(s, c, id));
  }

  lemma {:induction false} FormulasOnly(ds: seq<DependencyRef>)
    ensures OnlyOf(Gather(FormulaSteps, ds), F10)
  {
    if ds != [] { FormulasOnly(ds[..|ds| - 1]); }
  }

  lemma AggregateOnly(p: Proposal, f: Findings)
    ensures OnlyOf(AggregateFindings(p, f).steps, F11)
  {}

  lemma FlatThen(parts: seq<Part>, f: Findings, g: Findings, rule: RuleName)
    requires f.steps == Flat(parts)
    ensures f.Then(g).steps == Flat(parts + [Part(rule, g.steps)])
  {
    assert (parts + [Part(rule, g.steps)])[..|parts|] == parts;
  }

  lemma FirstParts(b: Findings, p: Findings, e: Findings, r: Findings, i: Findings, a: Findings) returns (f: Findings)
    requires a.steps == []
    ensures f == b.Then(p).Then(e).Then(r).Then(i).Then(a)
    ensures f.steps == Flat([Part(F01, b.steps)] + [Part(F02, p.steps)] + [Part(F03, e.steps)] + [Part(F04, r.steps)] + [Part(F05, i.steps)])
  {
    hide Flat, Findings.Then;
    FirstPart(b);
    var ps := [Part(F01, b.steps)];
    FlatThen(ps, b, p, F02);
    ps := ps + [Part(F02, p.steps)];
    FlatThen(ps, b.Then(p), e, F03);
    ps := ps + [Part(F03, e.steps)];
    FlatThen(ps, b.Then(p).Then(e), r, F04);
    ps := ps + [Part(F04, r.steps)];
    FlatThen(ps, b.Then(p).Then(e).Then(r), i, F05);
    f := b.Then(p).Then(e).Then(r).Then(i).Then(a);
    NoSteps(b.Then(p).Then(e).Then(r).Then(i), a);
  }

  lemma FirstPart(b: Findings)
    ensures b.steps == Flat([Part(F01, b.steps)])
  {
    assert [Part(F01, b.steps)][..0] == [];
  }

  lemma NoSteps(f: Findings, a: Findings)
    requires a.steps == []
    ensures f.Then(a).steps == f.steps
  {}

  lemma LaterParts(parts: seq<Part>, x: Findings, c: Findings, v: Findings, q: Findings, k: Findings, d: Findings, g: Findings)
    returns (f: Findings)
    requires x.steps == Flat(parts)
    ensures f == x.Then(c).Then(v).Then(q).Then(k).Then(d).Then(g)
    ensures f.steps == Flat(parts + [Part(F06, c.steps)] + [Part(F07, v.steps)] + [Part(F08, q.steps)] + [Part(F09, k.steps)]
                            + [Part(F10, d.steps)] + [Part(F11, g.steps)])
  {
    hide Flat, Findings.Then;
    var ps := parts + [Part(F06, c.steps)];
    FlatThen(parts, x, c, F06);
    FlatThen(ps, x.Then(c), v, F07);
    ps := ps + [Part(F07, v.steps)];
    FlatThen(ps, x.Then(c).Then(v), q, F08);
    ps := ps + [Part(F08, q.steps)];
    FlatThen(ps, x.Then(c).Then(v).Then(q), k, F09);
    ps := ps + [Part(F09, k.steps)];
    FlatThen(ps, x.Then(c).Then(v).Then(q).Then(k), d, F10);
    ps := ps + [Part(F10, d.steps)];
    FlatThen(ps, x.Then(c).Then(v).Then(q).Then(k).Then(d), g, F11);
    f := x.Then(c).Then(v).Then(q).Then(k).Then(d).Then(g);
  }

  lemma PartsAreAll(s: EvaluationSnapshot, c: RuleConfig, id: Option<string>)
    ensures AllFindings(s, c, id).steps == Flat(Parts(s, c, id))
  {
    hide BindFindings, ScopeFindings, ExclusionFindings, RetrievalFindings, IdentityFindings, ConflictFindings, EvidenceFindings,
      ConsequenceFindings, CapabilityFindings, ApprovalFindings, DependencyFindings, AggregateFindings, Flat, Findings.Then;
    var ps := Parts(s, c, id);
    var x := FirstParts(BindFindings(s, c, id), PolicyPart(s), ExclusionPart(s), RetrievalPart(s, c),
                        IdentityFindings(s.proposal, NearOnes(s, c)), ApprovalPart(s, c));
    assert ps[..5] == [ps[0]] + [ps[1]] + [ps[2]] + [ps[3]] + [ps[4]];
    assert ps == ps[..5] + [ps[5]] + [ps[6]] + [ps[7]] + [ps[8]] + [ps[9]] + [ps[10]];
    var f := LaterParts(ps[..5], x, ConflictPart(s, c), EvidencePart(s), ConsequencePart(s, c), CapabilityPart(s),
                        DependencyPart(s), AggregateFindings(s.proposal, FactFindings(s, c, id)));
  }

  /** The steps of a rule in the trace of a finished evaluation show the findings of that rule. */
  lemma FinishedPart(normalize: Normalizer, s: EvaluationSnapshot, config: RuleConfig, k: nat)
    requires Evaluation(normalize, s, config).Finalized? && k < 11
    ensures var c := CanonicalSnapshot(s);
      var p := Parts(c, config, PriorId(c))[k];
      Thresholds(config) && !DuplicateCapability(c.capabilities)
      && AllShow(StepsOf(Evaluation(normalize, s, config).result.trace, p.rule), p.steps)
  {
    hide Evaluation, FinishedAs, InputStop, CanonicalSnapshot, Parts, WellParted, Flat, AllFindings, Reduce, AllShow, FullTrace, DuplicateCapability;
    var c, f, red := Finished(normalize, s, config);
    var r := Evaluation(normalize, s, config).result;
    FinishedFindings(c, config, f, red, r);
    FinishedFields(c, config, f, red, r);
    FinishedConfig(c, config, f, red, r);
    var ps := Parts(c, config, PriorId(c));
    ElevenParts(c, config, PriorId(c));
    PartsParted(c, config, PriorId(c));
    PartsAreAll(c, config, PriorId(c));
    OnePart(ps, k);
    FactSteps(c, f, red, ps[k].rule);
  }

  lemma ElevenParts(s: EvaluationSnapshot, c: RuleConfig, id: Option<string>)
    ensures |Parts(s, c, id)| == 11 && forall k | 0 <= k < 11 :: Parts(s, c, id)[k].rule != F12
  {
    hide BindFindings, ScopeFindings, ExclusionFindings, RetrievalFindings, IdentityFindings, ConflictFindings, EvidenceFindings,
      ConsequenceFindings, CapabilityFindings, DependencyFindings, AggregateFindings, FactFindings;
  }

  // ----- the facts of a finished trace

  predicate TypedFact(d: Descriptor) {
    match d.rule
    case F01 => d.fact.Binding?
    case F02 => d.fact.Scope?
    case F03 => d.fact.Exclusions?
    case F04 => d.fact.Retrieval?
    case F05 => d.fact.Identity?
    case F06 => d.fact.Conflict?
    case F07 => d.fact.Evidence?
    case F08 => d.fact.Consequences?
    case F09 => d.fact.Capabilities?
    case F10 => d.fact.Formula?
    case F11 => d.fact.Aggregate?
    case _ => false
  }

  ghost predicate AllTyped(ds: seq<Descriptor>) { forall i | 0 <= i < |ds| :: TypedFact(ds[i]) }

  lemma {:induction false} FormulasTyped(ds: seq<DependencyRef>)
    ensures AllTyped(Gather(FormulaSteps, ds))
  {
    if ds != [] { FormulasTyped(ds[..|ds| - 1]); }
  }

  lemma EarlyTyped(s: EvaluationSnapshot, c: RuleConfig, id: Option<string>)
    ensures AllTyped(BindFindings(s, c, id).steps) && AllTyped(PolicyPart(s).steps) && AllTyped(ExclusionPart(s).steps)
    ensures AllTyped(RetrievalPart(s, c).steps) && AllTyped(IdentityFindings(s.proposal, NearOnes(s, c)).steps)
  {
    hide Sort, Filter, Gather, Each, AllowRules, DenyRules, SomeExcludes, SomeUnresolved, AllUnresolved, NearOnes;
  }

  lemma MiddleTyped(s: EvaluationSnapshot, c: RuleConfig)
    ensures AllTyped(ConflictPart(s, c).steps) && AllTyped(EvidencePart(s).steps) && AllTyped(ConsequencePart(s, c).steps)
  {
    hide Sort, Filter, Gather, Each, AllowRules, Approved, Qualifying, Conflicting, AllSatisfied, Requirements, Reports, MissingIds, SomeMore,
      ConsequenceRequired;
  }

  lemma LateTyped(s: EvaluationSnapshot, f: Findings)
    ensures AllTyped(CapabilityPart(s).steps) && AllTyped(AggregateFindings(s.proposal, f).steps)
  {
    hide Gather, Each, AllowRules, SomeInState, RequiredCapabilities, Triggered;
  }

  lemma PartsTyped(s: EvaluationSnapshot, c: RuleConfig, id: Option<string>, k: nat)
    requires k < 11
    ensures AllTyped(Parts(s, c, id)[k].steps)
  {
    hide BindFindings, ScopeFindings, ExclusionFindings, RetrievalFindings, IdentityFindings, ConflictFindings, EvidenceFindings,
      ConsequenceFindings, CapabilityFindings, FactFindings, AggregateFindings, AllTyped;
    EarlyTyped(s, c, id);
    MiddleTyped(s, c);
    LateTyped(s, FactFindings(s, c, id));
    FormulasTyped(SortedDependencies(s));
  }

  lemma ShownTyped(ts: seq<TraceStep>, ds: seq<Descriptor>)
    requires AllShow(ts, ds) && AllTyped(ds)
    ensures forall t | t in ts :: Typed(t)
  {
    hide Sort;
  }

  lemma PartRule(s: EvaluationSnapshot, c: RuleConfig, id: Option<string>, k: nat)
    requires k < 11
    ensures |Parts(s, c, id)| == 11 && Parts(s, c, id)[k].rule == [F01, F02, F03, F04, F05, F06, F07, F08, F09, F10, F11][k]
  {
    hide BindFindings, ScopeFindings, ExclusionFindings, RetrievalFindings, IdentityFindings, ConflictFindings, EvidenceFindings,
      ConsequenceFindings, CapabilityFindings, DependencyFindings, AggregateFindings, FactFindings;
  }

  /** In a finished trace every step of a fact rule records the fact of its rule. */
  lemma FinishedTyped(normalize: Normalizer, s: EvaluationSnapshot, config: RuleConfig, k: nat)
    requires Evaluation(normalize, s, config).Finalized? && k < 11
    ensures forall t | t in StepsOf(Evaluation(normalize, s, config).result.trace, [F01, F02, F03, F04, F05, F06, F07, F08, F09, F10, F11][k]) :: Typed(t)
  {
    hide Evaluation, CanonicalSnapshot, Parts, AllShow, AllTyped, Typed, StepsOf;
    var c := CanonicalSnapshot(s);
    FinishedPart(normalize, s, config, k);
    PartsTyped(c, config, PriorId(c), k);
    PartRule(c, config, PriorId(c), k);
    ShownTyped(StepsOf(Evaluation(normalize, s, config).result.trace, Parts(c, config, PriorId(c))[k].rule), Parts(c, config, PriorId(c))[k].steps);
  }

  // ----- dependencies

  lemma {:induction false} FormulaPairs(ds: seq<DependencyRef>)
    ensures |Gather(FormulaSteps, ds)| == 2 * |ds|
    ensures forall i | 0 <= i < |ds| ::
      Gather(FormulaSteps, ds)[2 * i] == FormulaStep(ds[i], false) && Gather(FormulaSteps, ds)[2 * i + 1] == FormulaStep(ds[i], true)
  {
    hide FormulaStep;
    if ds != [] { FormulaPairs(ds[..|ds| - 1]); }
  }

  /** The formula steps of a finished trace: a pair for each dependency, sorted by identity. */
  lemma FormulaTrace(normalize: Normalizer, s: EvaluationSnapshot, config: RuleConfig)
    requires Evaluation(normalize, s, config).Finalized?
    ensures var (ts, ds) := (StepsOf(Evaluation(normalize, s, config).result.trace, F10), Sort(DependencyKey, s.dependencies));
      |ts| == 2 * |ds| && forall i | 0 <= i < |ds| :: Shows(ts[2 * i], FormulaStep(ds[i], false)) && Shows(ts[2 * i + 1], FormulaStep(ds[i], true))
  {
    hide Evaluation, Parts, Shows, FormulaStep, Sort, CanonicalRules, CanonicalProposal;
    var c := CanonicalSnapshot(s);
    FinishedPart(normalize, s, config, 9);
    NinthPart(c, config, PriorId(c));
    SortIsIdempotent(DependencyKey, s.dependencies);
    FormulaPairs(SortedDependencies(c));
  }

  lemma NinthPart(s: EvaluationSnapshot, c: RuleConfig, id: Option<string>)
    ensures Parts(s, c, id)[9] == Part(F10, Gather(FormulaSteps, SortedDependencies(s)))
  {
    hide BindFindings, ScopeFindings, ExclusionFindings, RetrievalFindings, IdentityFindings, ConflictFindings, EvidenceFindings,
      ConsequenceFindings, CapabilityFindings, AggregateFindings, FactFindings, Gather;
  }

  lemma ShownFormula(t: TraceStep, d: DependencyRef, u: TraceStep, e: DependencyRef, thenPart: bool)
    requires Shows(t, FormulaStep(d, thenPart)) && Shows(u, FormulaStep(e, thenPart))
    ensures Typed(t) && Typed(u) && t.rule == u.rule && (SameFields(t, u) <==> SameDependency(d, e))
  {
    hide Sort;
  }

  /** Against a prior answer of the gate F10 is reported exactly when the sorted dependencies do not
      agree, one by one, on identity, state, necessity and sufficiency. */
  lemma DependencyReportedExactly(normalize: Normalizer, config: RuleConfig, a: EvaluationSnapshot, b: EvaluationSnapshot, p: PriorEvaluation)
    requires Evaluation(normalize, a, config).Finalized? && Evaluation(normalize, b, config).Finalized?
    requires b.prior == Some(p) && p.result == Evaluation(normalize, a, config).result
    ensures var (x, y) := (Sort(DependencyKey, a.dependencies), Sort(DependencyKey, b.dependencies));
      F10 !in Evaluation(normalize, b, config).result.changedFactRules <==> |x| == |y| && forall i | 0 <= i < |x| :: SameDependency(x[i], y[i])
  {
    hide Evaluation, Sort, StepsOf, Shows, Typed, SameFields, SameDependency, FormulaStep, ChangedRules;
    var (x, y) := (Sort(DependencyKey, a.dependencies), Sort(DependencyKey, b.dependencies));
    var r := Evaluation(normalize, b, config).result;
    FinishedTyped(normalize, a, config, 9);
    FinishedTyped(normalize, b, config, 9);
    FormulaTrace(normalize, a, config);
    FormulaTrace(normalize, b, config);
    AnswerIsBound(normalize, b, config);
    FactReportedExactly(p, r.trace, r.gaps, F10);
    var (ts, us) := (StepsOf(p.result.trace, F10), StepsOf(r.trace, F10));
    AgreeExactly(ts, us);
    if |x| == |y| {
      forall i | 0 <= i < |x| ensures HalfAt(ts, us, x, y, i) {
        ShownFormula(ts[2 * i], x[i], us[2 * i], y[i], false);
        ShownFormula(ts[2 * i + 1], x[i], us[2 * i + 1], y[i], true);
      }
      Halves(ts, us, x, y);
    }
  }

  ghost predicate Agree(t: TraceStep, u: TraceStep) { Typed(t) && Typed(u) && t.rule == u.rule && SameFields(t, u) }

  lemma AgreeExactly(ts: seq<TraceStep>, us: seq<TraceStep>)
    requires (forall t | t in ts :: Typed(t)) && forall u | u in us :: Typed(u)
    ensures (|ts| == |us| && forall i | 0 <= i < |ts| :: ts[i].rule == us[i].rule && SameFields(ts[i], us[i])) <==>
      |ts| == |us| && forall i | 0 <= i < |ts| :: Agree(ts[i], us[i])
  {
    hide Typed, SameFields;
    if |ts| == |us| && forall i | 0 <= i < |ts| :: Agree(ts[i], us[i]) {
      forall i | 0 <= i < |ts| ensures ts[i].rule == us[i].rule && SameFields(ts[i], us[i]) { assert Agree(ts[i], us[i]); }
    }
  }

  ghost predicate HalfAt(ts: seq<TraceStep>, us: seq<TraceStep>, x: seq<DependencyRef>, y: seq<DependencyRef>, i: nat)
    requires i < |x| == |y| && |ts| == |us| == 2 * |x|
  {
    && (Agree(ts[2 * i], us[2 * i]) <==> SameDependency(x[i], y[i]))
    && (Agree(ts[2 * i + 1], us[2 * i + 1]) <==> SameDependency(x[i], y[i]))
  }

  lemma AtHalf(ts: seq<TraceStep>, us: seq<TraceStep>, x: seq<DependencyRef>, y: seq<DependencyRef>, j: nat)
    requires |x| == |y| && |ts| == |us| == 2 * |x| && j < |ts| && HalfAt(ts, us, x, y, j / 2)
    ensures Agree(ts[j], us[j]) <==> SameDependency(x[j / 2], y[j / 2])
  {
    hide Agree, SameDependency;
    assert j == 2 * (j / 2) || j == 2 * (j / 2) + 1;
  }

  /** Agreement of the pairs is agreement of the dependencies. */
  lemma Halves(ts: seq<TraceStep>, us: seq<TraceStep>, x: seq<DependencyRef>, y: seq<DependencyRef>)
    requires |x| == |y| && |ts| == |us| == 2 * |x| && forall i | 0 <= i < |x| :: HalfAt(ts, us, x, y, i)
    ensures (forall j | 0 <= j < |ts| :: Agree(ts[j], us[j])) <==> forall i | 0 <= i < |x| :: SameDependency(x[i], y[i])
  {
    hide Agree, SameDependency, HalfAt;
    if forall i | 0 <= i < |x| :: SameDependency(x[i], y[i]) {
      forall j | 0 <= j < |ts| ensures Agree(ts[j], us[j]) { AtHalf(ts, us, x, y, j); }
    }
    if forall j | 0 <= j < |ts| :: Agree(ts[j], us[j]) {
      forall i | 0 <= i < |x| ensures SameDependency(x[i], y[i]) { AtHalf(ts, us, x, y, 2 * i); }
    }
  }

  /** So a dependency that none of the other evaluation matches on those fields makes the new
      result name F10. */
  lemma DependencyChangeIsReported(normalize: Normalizer, config: RuleConfig, a: EvaluationSnapshot, b: EvaluationSnapshot, p: PriorEvaluation,
                                   d: DependencyRef)
    requires Evaluation(normalize, a, config).Finalized? && Evaluation(normalize, b, config).Finalized?
    requires b.prior == Some(p) && p.result == Evaluation(normalize, a, config).result
    requires (d in b.dependencies && forall e | e in a.dependencies :: !SameDependency(e, d))
          || (d in a.dependencies && forall e | e in b.dependencies :: !SameDependency(d, e))
    ensures F10 in Evaluation(normalize, b, config).result.changedFactRules
  {
    hide Evaluation, Sort, SameDependency;
    DependencyReportedExactly(normalize, config, a, b, p);
    SortMembers(DependencyKey, a.dependencies);
    SortMembers(DependencyKey, b.dependencies);
    var (x, y) := (Sort(DependencyKey, a.dependencies), Sort(DependencyKey, b.dependencies));
    if |x| == |y| {
      if d in b.dependencies && forall e | e in a.dependencies :: !SameDependency(e, d) {
        var i :| 0 <= i < |y| && y[i] == d;
        assert x[i] in x && !SameDependency(x[i], y[i]);
      } else {
        var i :| 0 <= i < |x| && x[i] == d;
        assert y[i] in y && !SameDependency(x[i], y[i]);
      }
    }
  }
}
