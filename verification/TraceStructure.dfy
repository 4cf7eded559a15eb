/** The accepted traces told by step identities and ordinals. */
module TraceStructure {
  import opened Json
  import opened Models
  import opened Traces

  /** Every step of an accepted trace carries a pole of its family. */
  lemma AcceptedPoles(evaluationId: string, trace: seq<TraceStep>, because: Option<string>, blocked: bool, i: nat)
    requires TraceAccepted(evaluationId, trace, because, blocked) && i < |trace|
    ensures (trace[i].family, trace[i].pole) in POLES
  {
    hide RulesOnce, Paired;
    assert StepAccepted(evaluationId, trace, i, blocked);
    PolesExactly(trace[i].family, trace[i].pole);
  }

  /** The identity of the step at index i: evaluation, two-digit ordinal and rule. */
  predicate Named(evaluationId: string, s: TraceStep, i: nat)
    requires i < 99
  {
    && evaluationId != "" && StepRule(s.rule)
    && s.stepId == evaluationId + ":" + [DigitChar((i + 1) / 10), DigitChar((i + 1) % 10)] + ":" + s.rule.Text()
  }

  function Ids(trace: seq<TraceStep>): set<string> { set t | t in trace :: t.stepId }

  /** A reducer decides by some of the steps before it; other steps of a finished trace are no reducers. */
  ghost predicate Deciding(trace: seq<TraceStep>, i: nat, blocked: bool)
    requires i < |trace|
  {
    var (s, reducers) := (trace[i], {R1, R2, R3, R4});
    if s.ReducerStep? then
      && s.rule in reducers && s.decisive != [] && (set d | d in s.decisive) <= Ids(trace[..i])
      && (s.family, s.pole) == (EverySome, if s.rule == R4 then EVERY else SOME)
    else
      s.rule in reducers ==> blocked
  }

  ghost predicate OnceOrNever(trace: seq<TraceStep>) { forall r | r != F10 :: |Positions(trace, r)| <= 1 }

  predicate FormulasPaired(trace: seq<TraceStep>) { AdjacentPairs(Positions(trace, F10)) }

  ghost predicate Structured(evaluationId: string, trace: seq<TraceStep>, because: Option<string>, blocked: bool) {
    && 1 <= |trace| <= 99
    && (forall i | 0 <= i < |trace| :: Named(evaluationId, trace[i], i))
    && (forall i | 0 <= i < |trace| :: (trace[i].family, trace[i].pole) in POLES)
    && (forall i | 0 <= i < |trace| :: Deciding(trace, i, blocked))
    && OnceOrNever(trace) && FormulasPaired(trace)
    && (blocked ==> because.None? && forall i | 0 <= i < |trace| :: trace[i].OperatorStep?)
    && (!blocked ==> because == Some(trace[|trace| - 1].stepId) && trace[|trace| - 1].family == Because)
  }

  lemma NamedExactly(evaluationId: string, s: TraceStep, i: nat)
    requires i < 99
    ensures MakeStepId(evaluationId, i + 1, s.rule) == Some(s.stepId) <==> Named(evaluationId, s, i)
  {
    hide StepRule;
  }

  lemma EarlierIds(trace: seq<TraceStep>, i: nat, d: string)
    requires i <= |trace|
    ensures d in Ids(trace[..i]) <==> exists k | 0 <= k < i :: trace[k].stepId == d
  {
    if k :| 0 <= k < i && trace[k].stepId == d { assert trace[..i][k] == trace[k] && trace[k] in trace[..i]; }
    if t :| t in trace[..i] && t.stepId == d {
      var k :| 0 <= k < i && trace[..i][k] == t;
      assert trace[k] == t;
    }
  }

  lemma ReducersAre(rule: RuleName)
    ensures rule.IsReducer() <==> rule in {R1, R2, R3, R4}
  {}

  lemma StepExactly(evaluationId: string, trace: seq<TraceStep>, i: nat, blocked: bool)
    requires i < |trace| <= 99
    ensures StepAccepted(evaluationId, trace, i, blocked) <==>
      Named(evaluationId, trace[i], i) && (trace[i].family, trace[i].pole) in POLES && Deciding(trace, i, blocked)
  {
    hide StepRule, MakeStepId, Named, AllowedPole, Ids;
    var s := trace[i];
    NamedExactly(evaluationId, s, i);
    PolesExactly(s.family, s.pole);
    ReducersAre(s.rule);
    if s.ReducerStep? {
      forall d ensures d in Ids(trace[..i]) <==> exists k | 0 <= k < i :: trace[k].stepId == d { EarlierIds(trace, i, d); }
      assert (set d | d in s.decisive) <= Ids(trace[..i]) <==> forall d | d in s.decisive :: d in Ids(trace[..i]);
    }
  }

  lemma RulesExactly(trace: seq<TraceStep>)
    ensures RulesOnce(trace) <==> OnceOrNever(trace)
    ensures Paired(trace) <==> FormulasPaired(trace)
  {
    hide RulesOnce, Paired, AdjacentPairs;
    OnceExactly(trace);
    PairsExactly(trace);
    if RulesOnce(trace) {
      forall r | r != F10 ensures |Positions(trace, r)| <= 1 { assert Positions(trace, r) != [] ==> |Positions(trace, r)| == 1; }
    } else {
      var r :| r != F10 && Positions(trace, r) != [] && |Positions(trace, r)| != 1;
      assert |Positions(trace, r)| > 1;
    }
  }

  /** The accepted traces are those with two-digit step identities in order, poles of their
      families, reducers that decide by earlier steps, every rule once and formulas in adjacent
      pairs, and the conclusion last. */
  lemma AcceptedExactly(evaluationId: string, trace: seq<TraceStep>, because: Option<string>, blocked: bool)
    ensures TraceAccepted(evaluationId, trace, because, blocked) <==> Structured(evaluationId, trace, because, blocked)
  {
    hide StepAccepted, Named, Deciding, RulesOnce, Paired, OnceOrNever, FormulasPaired, AllowedPole;
    RulesExactly(trace);
    if 1 <= |trace| <= 99 {
      StepsExactly(evaluationId, trace, blocked);
      var last := trace[|trace| - 1];
      if StepsStructured(evaluationId, trace, blocked) { BecausePole(last); }
      assert (forall i | 0 <= i < |trace| :: StepAccepted(evaluationId, trace, i, blocked)) <==> StepsStructured(evaluationId, trace, blocked);
    }
  }

  ghost predicate StepsStructured(evaluationId: string, trace: seq<TraceStep>, blocked: bool)
    requires |trace| <= 99
  {
    && (forall i | 0 <= i < |trace| :: Named(evaluationId, trace[i], i))
    && (forall i | 0 <= i < |trace| :: (trace[i].family, trace[i].pole) in POLES)
    && (forall i | 0 <= i < |trace| :: Deciding(trace, i, blocked))
  }

  lemma StepsExactly(evaluationId: string, trace: seq<TraceStep>, blocked: bool)
    requires |trace| <= 99
    ensures (forall i | 0 <= i < |trace| :: StepAccepted(evaluationId, trace, i, blocked)) <==> StepsStructured(evaluationId, trace, blocked)
  {
    hide StepAccepted, Named, Deciding;
    forall i | 0 <= i < |trace|
      ensures StepAccepted(evaluationId, trace, i, blocked) <==>
        Named(evaluationId, trace[i], i) && (trace[i].family, trace[i].pole) in POLES && Deciding(trace, i, blocked)
    {
      StepExactly(evaluationId, trace, i, blocked);
    }
  }

  lemma BecausePole(t: TraceStep)
    ensures (t.family, t.pole) in POLES && t.family == Because ==> t.pole == BECAUSE
  {}

  // ----- results

  predicate CapitalOrDigit(c: char) { 'A' <= c <= 'Z' || '0' <= c <= '9' || c == '_' }

  /** F01 to F12, alone or with an underscore and a suffix. */
  predicate FactPattern(t: string) {
    && |t| >= 3 && (exists n | 1 <= n <= 12 :: t[..3] == ['F', DigitChar(n / 10), DigitChar(n % 10)])
    && (|t| == 3 || (|t| > 4 && t[3] == '_' && forall i | 4 <= i < |t| :: CapitalOrDigit(t[i])))
  }

  lemma FactTextExactly(t: string)
    ensures FactText(t) <==> FactPattern(t)
  {
    if |t| >= 3 {
      assert t[..3] == [t[0], t[1], t[2]];
      if FactText(t) {
        var n := if t[1] == '0' then t[2] as int - '0' as int else 10 + t[2] as int - '0' as int;
        assert t[..3] == ['F', DigitChar(n / 10), DigitChar(n % 10)];
      }
    }
  }

  lemma PolicyRules()
    ensures FactText("F01_THIS_BIND") && FactText("F02_SCOPE_BOUNDARY") && FactText("F03_EXCLUSION_IDENTITY")
  {}

  lemma PrecedentRules()
    ensures FactText("F04_PRECEDENT_RETRIEVAL") && FactText("F05_PRECEDENT_IDENTITY") && FactText("F06_PRECEDENT_CONFLICT")
  {}

  lemma EvidenceRules()
    ensures FactText("F07_EVIDENCE_COMPLETENESS") && FactText("F08_DIVERGENCE_BOUNDARY") && FactText("F09_CAPABILITY_SNAPSHOT")
  {}

  lemma LastRules()
    ensures FactText("F10_DEPENDENCY_FORMULA") && FactText("F11_CONDITION_AGGREGATE") && FactText("F12_FINAL_BECAUSE")
    ensures !FactText("R1_NO") && !FactText("R2_MAYBE") && !FactText("R3_IFF") && !FactText("R4_YES")
  {}

  lemma FactRuleExactly(rule: RuleName)
    ensures FactRule(rule) <==> FactPattern(rule.Text())
  {
    hide FactText, FactPattern;
    PolicyRules();
    PrecedentRules();
    EvidenceRules();
    LastRules();
    FactTextExactly(rule.Text());
  }

  lemma GapsExactly(gaps: set<EvidenceGap>)
    ensures GapsAccepted(gaps) <==> forall g | g in gaps :: g.resolutionRule.Text() != ""
  {
    forall g: EvidenceGap ensures g.resolutionRule != Other("") <==> g.resolutionRule.Text() != "" { TextOfRule(g.resolutionRule); }
  }

  lemma TextOfRule(rule: RuleName)
    ensures rule != Other("") <==> rule.Text() != ""
  {}

  /** A result is accepted exactly when every gap names a resolving rule, the changed rules are named
      F01 to F12, its trace is structured, an IFF has an unresolved dependency, the profile version
      is not empty, and the digest is that of its content. */
  lemma ResultExactly(r: CheckResult)
    ensures ResultAccepted(r) <==>
      && (forall g | g in r.gaps :: g.resolutionRule.Text() != "")
      && (forall q | q in r.changedFactRules :: FactPattern(q.Text()))
      && Structured(r.evaluationId, r.trace, Some(r.becauseStepId), false)
      && (r.verdict == IFF ==> exists d :: d in r.dependencies && d.state == StateUnresolved)
      && (r.profileVersion.Some? ==> r.profileVersion.value != "")
      && r.traceDigest == OfResult(r.(traceDigest := Zero))
  {
    hide TraceAccepted, Structured, GapsAccepted, FactRule, FactPattern;
    AcceptedExactly(r.evaluationId, r.trace, Some(r.becauseStepId), false);
    GapsExactly(r.gaps);
    forall q ensures FactRule(q) <==> FactPattern(q.Text()) { FactRuleExactly(q); }
  }
}
