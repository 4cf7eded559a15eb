/** The report of fact rules whose outcome differs from the prior evaluation. */
module Changes {
  import opened Json
  import opened Models
  import opened Sequences

  /** What two evaluations compare of a step. */
  datatype Projection =
    | FactPart(family: Family, pole: Pole, selected: Fact)
    | BecausePart(family: Family, pole: Pole, conclusion: Fact, decisiveRules: multiset<RuleName>, gaps: set<EvidenceGap>)

  function ComparedDependency(d: DependencyRef): DependencyRef {
    DependencyRef(d.dependencyId, "", "", "", None, d.state, Zero, [], d.necessaryForYes, d.sufficientIfTrue)
  }

  /** The compared fields of a fact; the others are blanked. */
  function Selected(rule: RuleName, fact: Fact): Fact {
    match (rule, fact)
    case (F01, Binding(_, _, _, _, _, _, _, _, _, _, _)) =>
      fact.(snapshotId := "", snapshotDigest := Zero, profileVersion := None, priorEvaluationId := None,
            priorTraceDigest := None, capturedAt := "")
    case (F02, Scope(allow, deny, _)) => Scope(allow, deny, [])
    case (F03, Exclusions(same, _)) => Exclusions(same, [])
    case (F04, Retrieval(_, _, _, near, some, all, _)) => Retrieval(0, 0, 0, near, some, all, [])
    case (F05, Identity(some, _)) => Identity(some, [])
    case (F06, Conflict(a, r, m, u, c, _)) => Conflict(a, r, m, u, c, [])
    case (F07, Evidence(all, _)) => Evidence(all, [])
    case (F08, Consequences(_, _, _, more, missing, _)) => Consequences([], [], 0, more, missing, [])
    case (F09, Capabilities(f, u, m, _)) => Capabilities(f, u, m, [])
    case (F10, Formula(d, satisfied, _)) => Formula(ComparedDependency(d), satisfied, false)
    case (F11, Aggregate(_)) => fact
    case _ => BlockedEarly
  }

  /** The rule of the last step carrying an identity. */
  function RuleOf(trace: seq<TraceStep>, id: string): Option<RuleName> {
    if trace == [] then None
    else if trace[|trace| - 1].stepId == id then Some(trace[|trace| - 1].rule)
    else RuleOf(trace[..|trace| - 1], id)
  }

  function RulesNamed(trace: seq<TraceStep>): string -> seq<RuleName> {
    (id: string) => match RuleOf(trace, id) case Some(r) => [r] case None => []
  }

  function ProjectionOf(trace: seq<TraceStep>, gaps: set<EvidenceGap>, step: TraceStep): Projection
    requires step.OperatorStep?
  {
    if step.rule == F12 then
      BecausePart(step.family, step.pole, step.fact, multiset(Gather(RulesNamed(trace), step.objectRefs)), gaps)
    else FactPart(step.family, step.pole, Selected(step.rule, step.fact))
  }

  function ProjectionsAt(trace: seq<TraceStep>, gaps: set<EvidenceGap>, rule: RuleName): TraceStep -> seq<Projection> {
    (step: TraceStep) => if step.OperatorStep? && step.rule == rule then [ProjectionOf(trace, gaps, step)] else []
  }

  /** The projections of one rule in trace order. */
  function Projections(trace: seq<TraceStep>, gaps: set<EvidenceGap>, rule: RuleName): seq<Projection> {
    Gather(ProjectionsAt(trace, gaps, rule), trace)
  }

  /** Every conclusion step states a verdict and a risk. */
  predicate Readable(trace: seq<TraceStep>) {
    forall s | s in trace && s.OperatorStep? && s.rule == F12 :: s.fact.Conclusion?
  }

  /** Some rule is projected differently. */
  function ChangedRules(prior: Option<PriorEvaluation>, trace: seq<TraceStep>, gaps: set<EvidenceGap>): set<RuleName> {
    match prior
    case None => {}
    case Some(p) =>
      set s | s in p.result.trace + trace &&
              Projections(p.result.trace, p.result.gaps, s.rule) != Projections(trace, gaps, s.rule) :: s.rule
  }

  ghost predicate ProjectionMap(m: map<RuleName, seq<Projection>>, trace: seq<TraceStep>, gaps: set<EvidenceGap>) {
    && (forall r :: r in m <==> Projections(trace, gaps, r) != [])
    && (forall r | r in m :: m[r] == Projections(trace, gaps, r))
  }

  /** The projections of a rule over the steps seen so far. */
  function Partial(trace: seq<TraceStep>, gaps: set<EvidenceGap>, rule: RuleName, n: nat): seq<Projection>
    requires n <= |trace|
  {
    Gather(ProjectionsAt(trace, gaps, rule), trace[..n])
  }

  lemma PartialStep(trace: seq<TraceStep>, gaps: set<EvidenceGap>, rule: RuleName, n: nat)
    requires n < |trace|
    ensures Partial(trace, gaps, rule, n + 1) == Partial(trace, gaps, rule, n)
      + if trace[n].OperatorStep? && trace[n].rule == rule then [ProjectionOf(trace, gaps, trace[n])] else []
  {
    hide ProjectionOf, Gather;
    GatherStep(ProjectionsAt(trace, gaps, rule), trace, n);
  }

  lemma PartialEnds(trace: seq<TraceStep>, gaps: set<EvidenceGap>, rule: RuleName)
    ensures Partial(trace, gaps, rule, 0) == [] && Partial(trace, gaps, rule, |trace|) == Projections(trace, gaps, rule)
  {
    hide ProjectionOf;
    LoopStart(trace);
  }

  /** The dictionary of projections, filled step by step. */
  method CollectProjections(trace: seq<TraceStep>, gaps: set<EvidenceGap>) returns (values: map<RuleName, seq<Projection>>)
    ensures ProjectionMap(values, trace, gaps)
  {
    hide Partial, Projections, ProjectionOf;
    values := map[];
    forall r ensures Partial(trace, gaps, r, 0) == [] && Partial(trace, gaps, r, |trace|) == Projections(trace, gaps, r) {
      PartialEnds(trace, gaps, r);
    }
    for i := 0 to |trace|
      invariant forall r :: r in values <==> Partial(trace, gaps, r, i) != []
      invariant forall r | r in values :: values[r] == Partial(trace, gaps, r, i)
    {
      forall r
        ensures Partial(trace, gaps, r, i + 1) == Partial(trace, gaps, r, i)
          + if trace[i].OperatorStep? && trace[i].rule == r then [ProjectionOf(trace, gaps, trace[i])] else []
      {
        PartialStep(trace, gaps, r, i);
      }
      var step := trace[i];
      if step.OperatorStep? {
        var projection := ProjectionOf(trace, gaps, step);
        values := values[step.rule := (if step.rule in values then values[step.rule] else []) + [projection]];
      }
    }
  }

  function Get(values: map<RuleName, seq<Projection>>, rule: RuleName): seq<Projection> {
    if rule in values then values[rule] else []
  }

  lemma ProjectedRule(trace: seq<TraceStep>, gaps: set<EvidenceGap>, r: RuleName)
    ensures Projections(trace, gaps, r) != [] ==> exists s :: s in trace && s.rule == r
  {
    var ps := Projections(trace, gaps, r);
    GatherMembers(ProjectionsAt(trace, gaps, r), trace);
    if ps != [] { assert ps[0] in ps; }
  }

  method ChangedFactIds(prior: Option<PriorEvaluation>, trace: seq<TraceStep>, gaps: set<EvidenceGap>)
    returns (changed: set<RuleName>)
    ensures changed == ChangedRules(prior, trace, gaps)
  {
    if prior.None? { return {}; }
    var p := prior.value.result;
    var before := CollectProjections(p.trace, p.gaps);
    var after := CollectProjections(trace, gaps);
    changed := set r | r in before.Keys + after.Keys && Get(before, r) != Get(after, r);
    hide Projections;
    forall r ensures r in changed <==> r in ChangedRules(prior, trace, gaps) {
      ProjectedRule(p.trace, p.gaps, r);
      ProjectedRule(trace, gaps, r);
    }
  }
}
