/** Validation of sparse governance traces, results and precedents. */
module Traces {
  import opened Json
  import opened Models

  const TRACE_LIMIT := 99

  predicate AllowedPole(family: Family, pole: Pole) {
    match family
    case This => pole.THIS?
    case SameNotSame => pole.SAME? || pole.NOT_SAME?
    case IfThen => pole.IF? || pole.THEN?
    case Because => pole.BECAUSE?
    case InsideOutside => pole.INSIDE? || pole.OUTSIDE?
    case NearFar => pole.NEAR? || pole.FAR?
    case CanCannot => pole.CAN? || pole.CANNOT?
    case TogetherAlone => pole.TOGETHER? || pole.ALONE?
    case MoreLess => pole.MORE? || pole.LESS?
    case EverySome => pole.EVERY? || pole.SOME?
  }

  const POLES: set<(Family, Pole)> :=
    {(This, THIS), (SameNotSame, SAME), (SameNotSame, NOT_SAME), (IfThen, IF), (IfThen, THEN), (Because, BECAUSE),
     (InsideOutside, INSIDE), (InsideOutside, OUTSIDE), (NearFar, NEAR), (NearFar, FAR), (CanCannot, CAN), (CanCannot, CANNOT),
     (TogetherAlone, TOGETHER), (TogetherAlone, ALONE), (MoreLess, MORE), (MoreLess, LESS), (EverySome, EVERY), (EverySome, SOME)}

  /** The poles of the ten families, and that a pole tells its family. */
  lemma PolesExactly(family: Family, pole: Pole)
    ensures AllowedPole(family, pole) <==> (family, pole) in POLES
    ensures forall other | (family, pole) in POLES && (other, pole) in POLES :: other == family
  {}

  // ----- step identities

  predicate RuleChar(c: char) { 'A' <= c <= 'Z' || '0' <= c <= '9' || c == '_' }

  /** A rule name is a capital letter and at most 63 capitals, digits and underscores. */
  predicate StepRule(rule: RuleName) {
    rule.Other? ==>
      && 1 <= |rule.text| <= 64
      && 'A' <= rule.text[0] <= 'Z'
      && forall i | 0 <= i < |rule.text| :: RuleChar(rule.text[i])
  }

  function TwoDigits(n: nat): (r: string)
    requires n < 100
    ensures |r| == 2
  {
    [DigitChar(n / 10), DigitChar(n % 10)]
  }

  function StepId(evaluationId: string, ordinal: nat, rule: RuleName): string
    requires ordinal < 100
  {
    evaluationId + ":" + TwoDigits(ordinal) + ":" + rule.Text()
  }

  function MakeStepId(evaluationId: string, ordinal: nat, rule: RuleName): Option<string> {
    if evaluationId == "" || !(1 <= ordinal <= TRACE_LIMIT) || !StepRule(rule) then None
    else Some(StepId(evaluationId, ordinal, rule))
  }

  /** Within one evaluation a step identity determines the ordinal. */
  lemma StepIdTellsOrdinal(e: string, i: nat, r: RuleName, j: nat, q: RuleName)
    requires i < 100 && j < 100 && StepId(e, i, r) == StepId(e, j, q)
    ensures i == j
  {
    var a, b := StepId(e, i, r), StepId(e, j, q);
    assert a[|e| + 1] == TwoDigits(i)[0] && a[|e| + 2] == TwoDigits(i)[1];
    assert b[|e| + 1] == TwoDigits(j)[0] && b[|e| + 2] == TwoDigits(j)[1];
  }

  // ----- the structure of an accepted trace

  predicate ReducerBound(rule: RuleName, family: Family, pole: Pole) {
    rule.IsReducer() && family == EverySome && pole == if rule.R4? then EVERY else SOME
  }

  /** A step carries its own identity and a pole of its family; a reducer is bound to its pole
      and decides by earlier steps. */
  ghost predicate StepAccepted(evaluationId: string, trace: seq<TraceStep>, i: nat, blocked: bool)
    requires i < |trace|
  {
    var s := trace[i];
    && MakeStepId(evaluationId, i + 1, s.rule) == Some(s.stepId)
    && AllowedPole(s.family, s.pole)
    && (s.ReducerStep? ==>
          && ReducerBound(s.rule, s.family, s.pole)
          && s.decisive != []
          && forall d | d in s.decisive :: exists k | 0 <= k < i :: trace[k].stepId == d)
    && (s.OperatorStep? && !blocked ==> !s.rule.IsReducer())
  }

  /** Formula steps come in adjacent pairs. */
  predicate Paired(trace: seq<TraceStep>) {
    var n := |trace|;
    if n == 0 then true
    else if trace[n - 1].rule != F10 then Paired(trace[..n - 1])
    else n > 1 && trace[n - 2].rule == F10 && Paired(trace[..n - 2])
  }

  /** Every other rule has at most one step. */
  ghost predicate RulesOnce(trace: seq<TraceStep>) {
    forall i, j | 0 <= i < j < |trace| && trace[i].rule == trace[j].rule :: trace[i].rule == F10
  }

  ghost predicate TraceAccepted(evaluationId: string, trace: seq<TraceStep>, because: Option<string>, blocked: bool) {
    && 1 <= |trace| <= TRACE_LIMIT
    && (forall i | 0 <= i < |trace| :: StepAccepted(evaluationId, trace, i, blocked))
    && RulesOnce(trace)
    && Paired(trace)
    && if blocked then
         because.None? && forall i | 0 <= i < |trace| :: trace[i].OperatorStep?
       else
         var last := trace[|trace| - 1];
         because == Some(last.stepId) && last.family == Because && last.pole == BECAUSE
  }

  // ----- the validator, step by step

  /** The ordinals at which a rule occurs. */
  function Positions(trace: seq<TraceStep>, rule: RuleName): (r: seq<nat>) {
    if trace == [] then []
    else Positions(trace[..|trace| - 1], rule) + if trace[|trace| - 1].rule == rule then [|trace|] else []
  }

  /** Positions two by two: each second one directly after its first. */
  predicate AdjacentPairs(ps: seq<nat>) {
    |ps| % 2 == 0 && forall k | 0 <= k < |ps| / 2 :: ps[2 * k + 1] == ps[2 * k] + 1
  }

  ghost predicate PositionMap(m: map<RuleName, seq<nat>>, trace: seq<TraceStep>) {
    && (forall r :: r in m <==> Positions(trace, r) != [])
    && (forall r | r in m :: m[r] == Positions(trace, r))
  }

  lemma {:induction false} PositionsMeaning(trace: seq<TraceStep>, rule: RuleName)
    ensures forall p :: p in Positions(trace, rule) <==> 1 <= p <= |trace| && trace[p - 1].rule == rule
    ensures forall a, b | 0 <= a < b < |Positions(trace, rule)| :: Positions(trace, rule)[a] < Positions(trace, rule)[b]
  {
    if trace != [] {
      var front := trace[..|trace| - 1];
      PositionsMeaning(front, rule);
      forall a | 0 <= a < |Positions(front, rule)| ensures Positions(front, rule)[a] < |trace| {
        assert Positions(front, rule)[a] in Positions(front, rule);
      }
    }
  }

  lemma OnceExactly(trace: seq<TraceStep>)
    ensures RulesOnce(trace) <==> forall r | r != F10 && Positions(trace, r) != [] :: |Positions(trace, r)| == 1
  {
    if !RulesOnce(trace) {
      var i, j :| 0 <= i < j < |trace| && trace[i].rule == trace[j].rule && trace[i].rule != F10;
      var r := trace[i].rule;
      PositionsMeaning(trace, r);
      assert i + 1 in Positions(trace, r) && j + 1 in Positions(trace, r);
    }
    if r :| r != F10 && Positions(trace, r) != [] && |Positions(trace, r)| != 1 {
      PositionsMeaning(trace, r);
      var ps := Positions(trace, r);
      assert ps[0] in ps && ps[1] in ps && ps[0] < ps[1];
      assert trace[ps[0] - 1].rule == trace[ps[1] - 1].rule;
    }
  }

  lemma PairsSnoc(ps: seq<nat>, p: nat)
    ensures AdjacentPairs(ps + [p, p + 1]) <==> AdjacentPairs(ps)
  {
    var qs := ps + [p, p + 1];
    if AdjacentPairs(qs) {
      forall k | 0 <= k < |ps| / 2 ensures ps[2 * k + 1] == ps[2 * k] + 1 {
        assert qs[2 * k + 1] == qs[2 * k] + 1;
      }
    }
  }

  lemma PositionsOfPair(trace: seq<TraceStep>)
    requires |trace| >= 2 && trace[|trace| - 1].rule == F10 && trace[|trace| - 2].rule == F10
    ensures Positions(trace, F10) == Positions(trace[..|trace| - 2], F10) + [|trace| - 1, |trace|]
  {
    var front := trace[..|trace| - 1];
    assert front[..|front| - 1] == trace[..|trace| - 2];
    assert front[|front| - 1] == trace[|trace| - 2];
  }

  /** A last formula step without its partner leaves the positions unpaired. */
  lemma LoneFormula(trace: seq<TraceStep>)
    requires trace != [] && trace[|trace| - 1].rule == F10
    requires |trace| == 1 || trace[|trace| - 2].rule != F10
    ensures !AdjacentPairs(Positions(trace, F10))
  {
    var ps := Positions(trace, F10);
    PositionsMeaning(trace, F10);
    if |ps| % 2 == 0 {
      var k := |ps| / 2 - 1;
      assert ps[2 * k + 1] == |trace|;
      assert ps[2 * k] in ps;
      assert ps[2 * k] != |trace| - 1;
    }
  }

  lemma {:induction false} PairsExactly(trace: seq<TraceStep>)
    ensures Paired(trace) <==> AdjacentPairs(Positions(trace, F10))
  {
    hide AdjacentPairs;
    var n := |trace|;
    if n == 0 {
      assert AdjacentPairs([]) by { NoPairs(); }
    } else if trace[n - 1].rule != F10 {
      PairsExactly(trace[..n - 1]);
      assert Positions(trace, F10) == Positions(trace[..n - 1], F10);
    } else if n > 1 && trace[n - 2].rule == F10 {
      PairsExactly(trace[..n - 2]);
      PositionsOfPair(trace);
      PairsSnoc(Positions(trace[..n - 2], F10), n - 1);
    } else {
      LoneFormula(trace);
    }
  }

  lemma NoPairs()
    ensures AdjacentPairs([])
  {}

  ghost predicate StepsAccepted(evaluationId: string, trace: seq<TraceStep>, n: nat, blocked: bool)
    requires n <= |trace|
  {
    forall i | 0 <= i < n :: StepAccepted(evaluationId, trace, i, blocked)
  }

  /** A step whose identity is right never repeats an earlier identity. */
  lemma FreshStepId(evaluationId: string, trace: seq<TraceStep>, i: nat, blocked: bool)
    requires i < |trace| && StepsAccepted(evaluationId, trace, i, blocked)
    requires MakeStepId(evaluationId, i + 1, trace[i].rule) == Some(trace[i].stepId)
    ensures forall k | 0 <= k < i :: trace[k].stepId != trace[i].stepId
  {
    hide StepId, AllowedPole, ReducerBound, StepRule;
    forall k | 0 <= k < i ensures trace[k].stepId != trace[i].stepId {
      assert StepAccepted(evaluationId, trace, k, blocked);
      if trace[k].stepId == trace[i].stepId {
        StepIdTellsOrdinal(evaluationId, k + 1, trace[k].rule, i + 1, trace[i].rule);
      }
    }
  }

  method ValidateStep(evaluationId: string, trace: seq<TraceStep>, i: nat, blocked: bool, stepIds: set<string>)
    returns (ok: bool)
    requires i < |trace| && StepsAccepted(evaluationId, trace, i, blocked)
    requires forall d :: d in stepIds <==> exists k | 0 <= k < i :: trace[k].stepId == d
    ensures ok <==> StepAccepted(evaluationId, trace, i, blocked)
  {
    var step := trace[i];
    var expected := MakeStepId(evaluationId, i + 1, step.rule);
    if expected != Some(step.stepId) { return false; }
    FreshStepId(evaluationId, trace, i, blocked);
    if step.stepId in stepIds { return false; }
    var known := stepIds + {step.stepId};
    if !AllowedPole(step.family, step.pole) { return false; }
    if step.ReducerStep? {
      if !ReducerBound(step.rule, step.family, step.pole) { return false; }
      if step.decisive == [] || (exists d | d in step.decisive :: d !in known) || step.stepId in step.decisive {
        return false;
      }
    } else if !blocked && step.rule.IsReducer() {
      return false;
    }
    return true;
  }

  lemma PositionsStep(m: map<RuleName, seq<nat>>, trace: seq<TraceStep>, i: nat)
    requires i < |trace| && PositionMap(m, trace[..i])
    ensures var r := trace[i].rule;
      PositionMap(m[r := (if r in m then m[r] else []) + [i + 1]], trace[..i + 1])
  {
    var r := trace[i].rule;
    var front := trace[..i + 1];
    assert front[..i] == trace[..i] && front[i] == trace[i];
    forall q ensures Positions(front, q) == Positions(trace[..i], q) + if q == r then [i + 1] else [] {}
  }

  /** The rule check over the collected ordinals. */
  method ValidatePositions(positions: map<RuleName, seq<nat>>, ghost trace: seq<TraceStep>) returns (ok: bool)
    requires PositionMap(positions, trace)
    ensures ok <==> RulesOnce(trace) && Paired(trace)
  {
    hide RulesOnce, Paired, Positions, AdjacentPairs;
    PairsExactly(trace);
    OnceExactly(trace);
    var rules := positions.Keys;
    while rules != {}
      invariant rules <= positions.Keys
      invariant forall r | r in positions.Keys - rules ::
        if r == F10 then AdjacentPairs(positions[r]) else |positions[r]| == 1
    {
      var rule :| rule in rules;
      if rule == F10 {
        if !AdjacentPairs(positions[rule]) { return false; }
      } else if |positions[rule]| != 1 {
        assert Positions(trace, rule) == positions[rule] && Positions(trace, rule) != [];
        return false;
      }
      rules := rules - {rule};
    }
    if F10 !in positions { assert AdjacentPairs([]) by { NoPairs(); } }
    return true;
  }

  /** The validator accepts exactly the traces of the stated structure. */
  method ValidateTrace(evaluationId: string, trace: seq<TraceStep>, because: Option<string>, blocked: bool)
    returns (ok: bool)
    ensures ok <==> TraceAccepted(evaluationId, trace, because, blocked)
  {
    hide StepAccepted, RulesOnce, Paired, Positions, PositionMap;
    if trace == [] || |trace| > TRACE_LIMIT { return false; }
    var stepIds: set<string> := {};
    var positions: map<RuleName, seq<nat>> := map[];
    NoPositions();
    for i := 0 to |trace|
      invariant StepsAccepted(evaluationId, trace, i, blocked)
      invariant forall d :: d in stepIds <==> exists k | 0 <= k < i :: trace[k].stepId == d
      invariant PositionMap(positions, trace[..i])
    {
      var accepted := ValidateStep(evaluationId, trace, i, blocked, stepIds);
      if !accepted { return false; }
      var step := trace[i];
      PositionsStep(positions, trace, i);
      stepIds := stepIds + {step.stepId};
      positions := positions[step.rule := (if step.rule in positions then positions[step.rule] else []) + [i + 1]];
    }
    assert trace[..|trace|] == trace;
    var ordered := ValidatePositions(positions, trace);
    if !ordered { return false; }
    if blocked {
      return because.None? && forall i | 0 <= i < |trace| :: trace[i].OperatorStep?;
    }
    if because.None? || because.value !in stepIds { return false; }
    var terminal := trace[|trace| - 1];
    return terminal.stepId == because.value && terminal.family == Because && terminal.pole == BECAUSE;
  }

  lemma NoPositions()
    ensures PositionMap(map[], [])
  {}

  // ----- results and precedents

  /** Every gap names the rule that resolves it. */
  predicate GapsAccepted(gaps: set<EvidenceGap>) {
    forall g | g in gaps :: g.resolutionRule != Other("")
  }

  /** F01 to F12, possibly with a suffix. */
  predicate FactRule(rule: RuleName) {
    if rule.Other? then FactText(rule.text) else !rule.IsReducer()
  }

  predicate FactText(t: string) {
    && |t| >= 3 && t[0] == 'F'
    && ((t[1] == '0' && '1' <= t[2] <= '9') || (t[1] == '1' && '0' <= t[2] <= '2'))
    && (|t| > 3 ==> |t| > 4 && t[3] == '_' && forall i | 4 <= i < |t| :: RuleChar(t[i]))
  }

  function ResultDigest(r: CheckResult): Digest { OfResult(r.(traceDigest := Zero)) }

  function BlockedDigest(b: BlockedResult): Digest { OfBlocked(b.(traceDigest := Zero)) }

  ghost predicate ResultAccepted(r: CheckResult) {
    && GapsAccepted(r.gaps)
    && (forall q | q in r.changedFactRules :: FactRule(q))
    && TraceAccepted(r.evaluationId, r.trace, Some(r.becauseStepId), false)
    && (r.verdict.IFF? ==> exists d | d in r.dependencies :: d.state == StateUnresolved)
    && r.profileVersion != Some("")
    && r.traceDigest == ResultDigest(r)
  }

  method ValidateCheckResult(r: CheckResult) returns (ok: bool)
    ensures ok <==> ResultAccepted(r)
  {
    hide TraceAccepted;
    var structured := ValidateTrace(r.evaluationId, r.trace, Some(r.becauseStepId), false);
    return
      && GapsAccepted(r.gaps)
      && (forall q | q in r.changedFactRules :: FactRule(q))
      && structured
      && (r.verdict.IFF? ==> exists d | d in r.dependencies :: d.state == StateUnresolved)
      && r.profileVersion != Some("")
      && r.traceDigest == ResultDigest(r);
  }

  ghost predicate BlockedAccepted(b: BlockedResult) {
    && TraceAccepted(b.evaluationId, b.trace, None, true)
    && b.traceDigest == BlockedDigest(b)
  }

  predicate PrecedentAccepted(p: PrecedentRef) {
    && ((p.decision.None? && p.decisionId.None? && p.decisionDigest.None?)
        || (p.decision.Some? && p.decisionId.Some? && p.decisionDigest.Some?))
    && ((p.receiptId.None? && p.receiptDigest.None? && p.receiptStatus.None?)
        || (p.receiptId.Some? && p.receiptDigest.Some? && p.receiptStatus.Some?))
    && (p.consequenceRefs != [] ==> p.receiptStatus == Some(Observed))
    && p.similarity.None? == p.similarityErrorCode.Some?
  }

  function SnapshotDigest(s: EvaluationSnapshot): Digest { OfSnapshot(s.(snapshotDigest := Zero)) }

  ghost predicate PriorAccepted(p: PriorEvaluation, proposalId: string) {
    && p.proposalId == proposalId
    && GapsAccepted(p.result.gaps)
    && (forall q | q in p.result.changedFactRules :: FactRule(q))
    && TraceAccepted(p.result.evaluationId, p.result.trace, Some(p.result.becauseStepId), false)
    && p.result.traceDigest == ResultDigest(p.result)
  }

  predicate LineageAccepted(p: Proposal) {
    || (p.parentProposalId.None? && p.sourceModifyDecisionId.None? && p.sourceModifyDecisionValue.None?)
    || (p.parentProposalId.Some? && p.sourceModifyDecisionId.Some? && p.sourceModifyDecisionValue == Some(Modify))
  }

  predicate DistinctDependencies(ds: seq<DependencyRef>) {
    forall i, j | 0 <= i < j < |ds| :: ds[i].dependencyId != ds[j].dependencyId
  }

  ghost predicate SnapshotAccepted(s: EvaluationSnapshot) {
    && LineageAccepted(s.proposal)
    && s.evaluationId != "" && s.snapshotId != ""
    && (s.prior.Some? ==> PriorAccepted(s.prior.value, s.proposal.proposalId))
    && (forall p | p in s.precedents :: PrecedentAccepted(p))
    && DistinctDependencies(s.dependencies)
    && s.snapshotDigest == SnapshotDigest(s)
  }
}
