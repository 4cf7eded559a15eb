/** The changed-fact report, rule by rule, on the fields that the two traces record. */
module GateFields {
  import opened Changes
  import opened Json
  import opened Models
  import opened Sequences

  // ----- the steps of one rule

  function OfRule(rule: RuleName): TraceStep -> bool { (t: TraceStep) => t.OperatorStep? && t.rule == rule }

  function StepsOf(trace: seq<TraceStep>, rule: RuleName): seq<TraceStep> { Filter(OfRule(rule), trace) }

  /** A step records the fact of its rule. */
  predicate Typed(t: TraceStep) {
    t.OperatorStep? &&
    match t.rule
    case F01 => t.fact.Binding?
    case F02 => t.fact.Scope?
    case F03 => t.fact.Exclusions?
    case F04 => t.fact.Retrieval?
    case F05 => t.fact.Identity?
    case F06 => t.fact.Conflict?
    case F07 => t.fact.Evidence?
    case F08 => t.fact.Consequences?
    case F09 => t.fact.Capabilities?
    case F10 => t.fact.Formula?
    case F11 => t.fact.Aggregate?
    case _ => false
  }

  /** Two steps of one fact rule agree on the compared fields: pole, and
      for F01 proposal, digests, policy and configuration, not the names of snapshot and prior;
      for F10 identity, state, necessity, sufficiency and satisfaction of the dependency;
      for F11 the triggered predicates; for the others the flags. */
  predicate SameFields(x: TraceStep, y: TraceStep)
    requires Typed(x) && Typed(y) && x.rule == y.rule
  {
    && x.family == y.family && x.pole == y.pole
    && match x.rule
       case F01 =>
         && x.fact.proposalId == y.fact.proposalId && x.fact.proposalDigest == y.fact.proposalDigest
         && x.fact.actionDigest == y.fact.actionDigest && x.fact.policyDigest == y.fact.policyDigest
         && x.fact.ruleConfigDigest == y.fact.ruleConfigDigest
       case F02 => x.fact.hasAllow == y.fact.hasAllow && x.fact.hasDeny == y.fact.hasDeny
       case F03 => x.fact.someSame == y.fact.someSame
       case F04 =>
         && x.fact.someNear == y.fact.someNear && x.fact.someUnresolved == y.fact.someUnresolved
         && x.fact.allUnresolved == y.fact.allUnresolved
       case F05 => x.fact.someQualifying == y.fact.someQualifying
       case F06 =>
         && x.fact.approved == y.fact.approved && x.fact.rejected == y.fact.rejected && x.fact.modified == y.fact.modified
         && x.fact.undecided == y.fact.undecided && x.fact.conflict == y.fact.conflict
       case F07 => x.fact.allSatisfied == y.fact.allSatisfied
       case F08 => x.fact.someMore == y.fact.someMore && x.fact.someMissingConsequence == y.fact.someMissingConsequence
       case F09 =>
         && x.fact.someFalse == y.fact.someFalse && x.fact.someUnresolvedCapability == y.fact.someUnresolvedCapability
         && x.fact.someMissing == y.fact.someMissing
       case F10 => SameDependency(x.fact.dependency, y.fact.dependency) && x.fact.predicateSatisfied == y.fact.predicateSatisfied
       case F11 => x.fact.triggered == y.fact.triggered
  }

  predicate SameDependency(d: DependencyRef, e: DependencyRef) {
    && d.dependencyId == e.dependencyId && d.state == e.state
    && d.necessaryForYes == e.necessaryForYes && d.sufficientIfTrue == e.sufficientIfTrue
  }

  // ----- the report on those fields

  lemma ProjectionFields(t: seq<TraceStep>, g: set<EvidenceGap>, x: TraceStep, u: seq<TraceStep>, h: set<EvidenceGap>, y: TraceStep)
    requires Typed(x) && Typed(y) && x.rule == y.rule
    ensures ProjectionOf(t, g, x) == ProjectionOf(u, h, y) <==> SameFields(x, y)
  {}

  lemma {:induction false} ProjectedSteps(t: seq<TraceStep>, g: set<EvidenceGap>, rule: RuleName)
    ensures |Projections(t, g, rule)| == |StepsOf(t, rule)|
    ensures forall i | 0 <= i < |StepsOf(t, rule)| ::
      OfRule(rule)(StepsOf(t, rule)[i]) && Projections(t, g, rule)[i] == ProjectionOf(t, g, StepsOf(t, rule)[i])
  {
    PrefixSteps(t, t, g, rule);
  }

  lemma {:induction false} PrefixSteps(w: seq<TraceStep>, t: seq<TraceStep>, g: set<EvidenceGap>, rule: RuleName)
    ensures |Gather(ProjectionsAt(w, g, rule), t)| == |StepsOf(t, rule)|
    ensures forall i | 0 <= i < |StepsOf(t, rule)| ::
      OfRule(rule)(StepsOf(t, rule)[i]) && Gather(ProjectionsAt(w, g, rule), t)[i] == ProjectionOf(w, g, StepsOf(t, rule)[i])
  {
    hide ProjectionOf;
    if t != [] { PrefixSteps(w, t[..|t| - 1], g, rule); }
  }

  lemma ReportedExactly(p: PriorEvaluation, trace: seq<TraceStep>, gaps: set<EvidenceGap>, rule: RuleName)
    ensures rule in ChangedRules(Some(p), trace, gaps) <==>
      Projections(p.result.trace, p.result.gaps, rule) != Projections(trace, gaps, rule)
  {
    hide Projections;
    ProjectedRule(p.result.trace, p.result.gaps, rule);
    ProjectedRule(trace, gaps, rule);
  }

  /** A fact rule is reported as changed exactly when its steps in the two traces do not agree, one
      by one, on the compared fields. */
  lemma FactReportedExactly(p: PriorEvaluation, trace: seq<TraceStep>, gaps: set<EvidenceGap>, rule: RuleName)
    requires forall t | t in StepsOf(p.result.trace, rule) :: Typed(t)
    requires forall t | t in StepsOf(trace, rule) :: Typed(t)
    ensures var (a, b) := (StepsOf(p.result.trace, rule), StepsOf(trace, rule));
      rule !in ChangedRules(Some(p), trace, gaps) <==>
        |a| == |b| && forall i | 0 <= i < |a| :: a[i].rule == b[i].rule && SameFields(a[i], b[i])
  {
    hide Typed, SameFields, ProjectionOf, ChangedRules, Projections, StepsOf;
    var (t, g) := (p.result.trace, p.result.gaps);
    var (a, b) := (StepsOf(t, rule), StepsOf(trace, rule));
    ReportedExactly(p, trace, gaps, rule);
    ProjectedSteps(t, g, rule);
    ProjectedSteps(trace, gaps, rule);
    forall i | 0 <= i < |a| && i < |b|
      ensures a[i].rule == b[i].rule
      ensures Projections(t, g, rule)[i] == Projections(trace, gaps, rule)[i] <==> SameFields(a[i], b[i])
    {
      ProjectionFields(t, g, a[i], trace, gaps, b[i]);
    }
    if |a| == |b| && forall i | 0 <= i < |a| :: SameFields(a[i], b[i]) {
      assert Projections(t, g, rule) == Projections(trace, gaps, rule);
    }
  }
}
