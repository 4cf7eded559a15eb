/** When the gate answers at all, and concrete snapshots on which it misses what it promises. */
module GateExamples {
  import opened Canonical
  import opened Changes
  import opened Gate
  import opened GateChanges
  import opened GateEvidence
  import opened GateProperties
  import opened GateRules
  import opened GateTrace
  import opened GateVerdict
  import opened Json
  import opened Models
  import opened Ordering
  import opened Sequences
  import opened Traces

  /** Up to 43 dependencies an evaluation is finalized exactly when its input is valid, no fact
      rule stops, and the conclusion of the prior trace can be read. */
  lemma FinalizedExactly(normalize: Normalizer, s: EvaluationSnapshot, config: RuleConfig)
    requires |s.dependencies| <= 43
    ensures var c := CanonicalSnapshot(s);
      Evaluation(normalize, s, config).Finalized? <==>
        && InputStop(normalize, c, config).None? && FactStop(c, config).None? && c.evaluationId != ""
        && (c.prior.Some? ==> Readable(c.prior.value.result.trace))
  {
    hide CanonicalSnapshot, InputStop, FactStop, AllFindings, Reduce, Finish, Readable, Thresholds;
    var c := CanonicalSnapshot(s);
    SameSize(s);
    LimitOfJudgement(c, config, PriorId(c));
    if InputStop(normalize, c, config).None? && FactStop(c, config).None? {
      JudgedConfig(normalize, c, config);
      ReducerIsTotal(c, config, PriorId(c));
    }
  }

  lemma LastStep(normalize: Normalizer, s: EvaluationSnapshot, config: RuleConfig)
    requires Evaluation(normalize, s, config).Finalized?
    ensures var t := Evaluation(normalize, s, config).result.trace;
      t != [] && t[|t| - 1].OperatorStep? && t[|t| - 1].rule == F12 && t[|t| - 1].fact.Conclusion?
  {
    hide InputStop, FactStop, AllFindings, Reduce, BlockedOf, CanonicalSnapshot, ChangedRules, Warnings, StepId, DecisiveIds, Numbered;
  }

  /** A finalized answer can serve as the prior of a later one. */
  lemma AnswerIsReadable(normalize: Normalizer, s: EvaluationSnapshot, config: RuleConfig)
    requires Evaluation(normalize, s, config).Finalized?
    ensures Readable(Evaluation(normalize, s, config).result.trace)
  {
    hide Evaluation, StepAccepted, Paired;
    FinishedTraceAccepted(normalize, s, config);
    LastStep(normalize, s, config);
  }

  // ----- the precedent limit

  predicate OverLimit(stop: Option<ErrorCode>) { stop == Some(PrecedentLimitExceeded) }

  /** The answer is that the snapshot holds too many precedents. */
  ghost predicate TooMany(normalize: Normalizer, s: EvaluationSnapshot, config: RuleConfig) {
    var o := Evaluation(normalize, s, config);
    o.Blocked? && o.blocked.error == PrecedentLimitExceeded
  }

  /** Everything checked before the precedents are counted is in order. */
  ghost predicate Admitted(normalize: Normalizer, s: EvaluationSnapshot, config: RuleConfig) {
    var c := CanonicalSnapshot(s);
    && ConfigAccepted(config) && SnapshotStop(c).None? && ProposalStop(normalize, c.proposal).None?
    && c.policy.policyDigest == PolicyDigest(c.policy) && c.policy.policyVersion != "" && c.profileVersion != Some("")
  }

  lemma {:induction false} ExclusionsNotOver(normalize: Normalizer, es: seq<ExclusionRef>)
    ensures !OverLimit(ExclusionsStop(normalize, es))
  {
    if es != [] { ExclusionsNotOver(normalize, es[1..]); }
  }

  lemma {:induction false} PriorStepsNotOver(e: string, trace: seq<TraceStep>, i: nat)
    requires i <= |trace|
    ensures !OverLimit(PriorStepsStop(e, trace, i))
    decreases |trace| - i
  {
    hide MakeStepId;
    if i < |trace| { PriorStepsNotOver(e, trace, i + 1); }
  }

  lemma SnapshotNotOver(s: EvaluationSnapshot)
    ensures !OverLimit(SnapshotStop(s))
  {
    hide SnapshotAccepted, PriorStepsStop, Reducers, SnapshotDigest, ResultDigest;
    if s.prior.Some? { PriorStepsNotOver(s.prior.value.result.evaluationId, s.prior.value.result.trace, 0); }
  }

  lemma ProposalNotOver(normalize: Normalizer, p: Proposal)
    ensures !OverLimit(ProposalStop(normalize, p))
  {
    hide ActionDigest, ProposalDigest;
  }

  lemma InputOverExactly(normalize: Normalizer, c: EvaluationSnapshot, config: RuleConfig)
    ensures OverLimit(InputStop(normalize, c, config)) <==>
      && ConfigAccepted(config) && SnapshotStop(c).None? && ProposalStop(normalize, c.proposal).None?
      && c.policy.policyDigest == PolicyDigest(c.policy) && c.policy.policyVersion != "" && c.profileVersion != Some("")
      && |c.precedents| > config.precedentTopK
  {
    hide ConfigAccepted, SnapshotStop, ProposalStop, PolicyDigest, ExclusionsStop, SameDependencyIds;
    SnapshotNotOver(c);
    ProposalNotOver(normalize, c.proposal);
    ExclusionsNotOver(normalize, c.exclusions);
  }

  /** The evaluation is blocked for too many precedents exactly when everything checked before is
      in order and the snapshot holds more than five. */
  lemma LimitExactly(normalize: Normalizer, s: EvaluationSnapshot, config: RuleConfig)
    ensures TooMany(normalize, s, config) <==> Admitted(normalize, s, config) && |s.precedents| > 5
  {
    hide CanonicalSnapshot, InputStop, ConfigAccepted, SnapshotStop, ProposalStop, PolicyDigest, FactStop, AllFindings, Reduce, Finish, Readable;
    var c := CanonicalSnapshot(s);
    InputOverExactly(normalize, c, config);
    FactNotOver(c, config);
    SamePrecedentCount(s);
    if ConfigAccepted(config) { PinnedLimit(config); }
  }

  lemma FactNotOver(s: EvaluationSnapshot, config: RuleConfig)
    ensures !OverLimit(FactStop(s, config))
  {
    hide Reports, Approved, ReportBound, DuplicateCapability;
  }

  lemma SamePrecedentCount(s: EvaluationSnapshot)
    ensures |CanonicalSnapshot(s).precedents| == |s.precedents|
  {
    hide Sort;
    SortMembers(PrecedentKey, s.precedents);
  }

  lemma PinnedLimit(config: RuleConfig)
    requires ConfigAccepted(config)
    ensures config.precedentTopK == 5
  {}

  // ----- a request with little in it

  const CONFIG := PINNED.(digest := OfConfig(PINNED))

  function Keys(text: string): Option<string> { Some(if text == "SET_DEMO_VALUE" then "set_demo_value" else text) }

  /** A name in the form that identity columns take. */
  function Uuid(c: char): (r: string)
    ensures |r| == 36 && r[35] == c
  {
    "00000000-0000-4000-8000-00000000000" + [c]
  }

  /** The proposal of the examples. */
  function Named(): string { Uuid('0') }

  function Sample(parameters: string, ds: seq<DependencyRef>): Proposal {
    var p := Proposal(Named(), None, None, None, "agent", "session", "SET_DEMO_VALUE", "set_demo_value", "demo_kv:a", "demo_kv:a",
                      "", "", parameters, parameters, parameters, [], ds, Zero, Zero);
    var q := p.(actionDigest := ActionDigest(p));
    q.(proposalDigest := ProposalDigest(q))
  }

  function SamplePolicy(rules: seq<PolicyRule>): PolicyInput {
    var p := PolicyInput("v1", Zero, rules);
    p.(policyDigest := PolicyDigest(p))
  }

  function SampleSnapshot(p: Proposal, rules: seq<PolicyRule>, id: string, prior: Option<PriorEvaluation>): EvaluationSnapshot {
    var s := EvaluationSnapshot(id, id, None, p, SamplePolicy(rules), [], [], [], p.dependencies, prior, "", Zero);
    s.(snapshotDigest := SnapshotDigest(s))
  }

  lemma SampleDigests(parameters: string, ds: seq<DependencyRef>)
    ensures var p := Sample(parameters, ds);
      && p.actionDigest == ActionDigest(p) && p.proposalDigest == ProposalDigest(p)
      && p.dependencies == ds && p.evidenceRefs == [] && p.proposalId == Named() && LineageAccepted(p) && p.parentProposalId.None?
  {}

  lemma SampleKeys(parameters: string, ds: seq<DependencyRef>)
    ensures ProposalStop(Keys, Sample(parameters, ds)).None?
  {
    hide ActionDigest, ProposalDigest;
    SampleDigests(parameters, ds);
  }

  // ----- which the gate takes as it is

  ghost predicate Short(p: Proposal, rules: seq<PolicyRule>) {
    && p.evidenceRefs == [] && |p.dependencies| <= 1 && |rules| <= 1
    && forall r | r in rules :: |r.requiredEvidence| <= 1 && r.requiredCapabilityIds == []
  }

  lemma ShortSort<T>(key: T -> Key, s: seq<T>)
    requires |s| <= 1
    ensures Sort(key, s) == s
  {
    if s != [] { assert Sort(key, s[1..]) == []; }
  }

  lemma ShortRules(rules: seq<PolicyRule>)
    requires |rules| <= 1 && forall r | r in rules :: |r.requiredEvidence| <= 1 && r.requiredCapabilityIds == []
    ensures CanonicalRules(rules) == rules
  {
    ShortSort(RuleKey, rules);
    if rules != [] {
      ShortSort(RequirementKey, rules[0].requiredEvidence);
      assert Members(rules[0].requiredCapabilityIds) == {};
      assert CanonicalRule(rules[0]) == rules[0];
    }
  }

  lemma SampleCanonical(p: Proposal, rules: seq<PolicyRule>, id: string, prior: Option<PriorEvaluation>)
    requires Short(p, rules)
    ensures var s := SampleSnapshot(p, rules, id, prior); CanonicalSnapshot(s) == s
  {
    hide PolicyDigest, SnapshotDigest, CanonicalRules, Sort;
    ShortRules(rules);
    ShortSort(RefKey, p.evidenceRefs);
    ShortSort(DependencyKey, p.dependencies);
    ShortSort(PrecedentKey, []);
    ShortSort(ExclusionKey, []);
    ShortSort(CapabilityKey, []);
  }

  /** A prior the gate made for the same policy. */
  ghost predicate Usable(prior: Option<PriorEvaluation>, p: Proposal, rules: seq<PolicyRule>) {
    match prior
    case None => true
    case Some(e) =>
      && PriorAccepted(e, p.proposalId) && Readable(e.result.trace)
      && e.result.evaluatorVersion == CONFIG.evaluatorVersion && e.result.ruleConfigDigest == CONFIG.digest
      && e.result.policyDigest == SamplePolicy(rules).policyDigest
  }

  lemma SampleAccepted(parameters: string, ds: seq<DependencyRef>, rules: seq<PolicyRule>, id: string, prior: Option<PriorEvaluation>)
    requires Short(Sample(parameters, ds), rules) && Usable(prior, Sample(parameters, ds), rules) && id != ""
    ensures SnapshotAccepted(SampleSnapshot(Sample(parameters, ds), rules, id, prior))
  {
    hide ActionDigest, ProposalDigest, PolicyDigest, PriorAccepted;
    SampleDigests(parameters, ds);
  }

  lemma SampleJudged(parameters: string, ds: seq<DependencyRef>, rules: seq<PolicyRule>, id: string, prior: Option<PriorEvaluation>)
    requires Short(Sample(parameters, ds), rules) && Usable(prior, Sample(parameters, ds), rules) && id != ""
    ensures var s := SampleSnapshot(Sample(parameters, ds), rules, id, prior);
      InputStop(Keys, s, CONFIG).None? && FactStop(s, CONFIG).None?
  {
    hide Sample, SnapshotAccepted, PriorAccepted, Readable, PolicyDigest, ProposalStop, Sort, Approved, Short;
    SampleDigests(parameters, ds);
    SampleKeys(parameters, ds);
    SampleAccepted(parameters, ds, rules, id, prior);
    var s := SampleSnapshot(Sample(parameters, ds), rules, id, prior);
    NothingApproved(s);
    PolicySealed(rules);
  }

  lemma PolicySealed(rules: seq<PolicyRule>)
    ensures var p := SamplePolicy(rules); p.policyDigest == PolicyDigest(p) && p.policyVersion == "v1" && p.rules == rules
  {}

  lemma NothingApproved(s: EvaluationSnapshot)
    requires s.precedents == []
    ensures Reports(Approved(s, CONFIG)) == []
  {
    assert SortedPrecedents(s) == [];
  }

  /** The gate answers every such request, and the answer is bound to it. */
  lemma SampleAnswered(parameters: string, ds: seq<DependencyRef>, rules: seq<PolicyRule>, id: string, prior: Option<PriorEvaluation>)
    requires Short(Sample(parameters, ds), rules) && Usable(prior, Sample(parameters, ds), rules) && id != ""
    ensures var (p, s) := (Sample(parameters, ds), SampleSnapshot(Sample(parameters, ds), rules, id, prior));
      Evaluation(Keys, s, CONFIG).Finalized?
  {
    hide Sample, SampleSnapshot, Evaluation, InputStop, FactStop, CanonicalSnapshot, Readable, PriorAccepted;
    var s := SampleSnapshot(Sample(parameters, ds), rules, id, prior);
    SampleCanonical(Sample(parameters, ds), rules, id, prior);
    SampleJudged(parameters, ds, rules, id, prior);
    SampleParts(Sample(parameters, ds), rules, id, prior);
    SampleDigests(parameters, ds);
    FinalizedExactly(Keys, s, CONFIG);
  }

  lemma SampleParts(p: Proposal, rules: seq<PolicyRule>, id: string, prior: Option<PriorEvaluation>)
    ensures var s := SampleSnapshot(p, rules, id, prior);
      && s.evaluationId == id && s.prior == prior && s.proposal == p && s.dependencies == p.dependencies && s.policy == SamplePolicy(rules)
      && s.profileVersion.None? && s.precedents == [] && s.capabilities == [] && s.exclusions == []
      && s.snapshotDigest == SnapshotDigest(s)
  {}

  lemma SampleVerdict(parameters: string, ds: seq<DependencyRef>, rules: seq<PolicyRule>, id: string)
    requires Short(Sample(parameters, ds), rules) && id != ""
    requires (forall r | r in rules :: r.effect == Allow) && forall d | d in ds :: d.state != StateFalse
    ensures var s := SampleSnapshot(Sample(parameters, ds), rules, id, None);
      Evaluation(Keys, s, CONFIG).Finalized? && Evaluation(Keys, s, CONFIG).result.verdict == MAYBE
  {
    hide Sample, SampleSnapshot, Evaluation, Short;
    var s := SampleSnapshot(Sample(parameters, ds), rules, id, None);
    SampleAnswered(parameters, ds, rules, id, None);
    SampleParts(Sample(parameters, ds), rules, id, None);
    SampleDigests(parameters, ds);
    VerdictIsDeclared(Keys, s, CONFIG);
    assert PrecedentsOpen(s);
  }

  // ----- the gate's own result fails its validator

  const UNRESOLVABLE := EvidenceRequirement("q", "review", What, "p", Other(""))

  const UNRESOLVABLE_RULE := PolicyRule("r", "set_demo_value", None, Allow, "", [UNRESOLVABLE], [], false)

  /** A requirement without a resolving rule makes the answer invalid. */
  lemma OwnResultRefused(parameters: string)
    ensures var s := SampleSnapshot(Sample(parameters, []), [UNRESOLVABLE_RULE], "a", None);
      Evaluation(Keys, s, CONFIG).Finalized? && !ResultAccepted(Evaluation(Keys, s, CONFIG).result)
  {
    hide Evaluation, SampleSnapshot, ResultAccepted, Denied;
    var s := SampleSnapshot(Sample(parameters, []), [UNRESOLVABLE_RULE], "a", None);
    SampleVerdict(parameters, [], [UNRESOLVABLE_RULE], "a");
    SampleParts(Sample(parameters, []), [UNRESOLVABLE_RULE], "a", None);
    assert UnresolvableRequirement(s) by {
      assert Grants(s, UNRESOLVABLE_RULE);
      assert UNRESOLVABLE in UNRESOLVABLE_RULE.requiredEvidence;
      assert Demands(s, UNRESOLVABLE);
      NoEvidence(s);
    }
    UnresolvableAsks(Keys, s, CONFIG);
    ResultAcceptedExactly(Keys, s, CONFIG);
  }

  lemma NoEvidence(s: EvaluationSnapshot)
    requires s.proposal.evidenceRefs == []
    ensures !Evidenced(s, UNRESOLVABLE)
  {}

  // ----- a prior with a step of no fact rule

  /** A valid trace of one step, under a rule that is no fact rule. */
  function ForeignStep(): TraceStep {
    OperatorStep(StepId("z", 1, Other("X1")), Other("X1"), Because, BECAUSE, "p", [], {}, BlockedEarly, [])
  }

  function ForeignResult(): CheckResult {
    var r := CheckResult(MAYBE, MEDIUM, [ForeignStep()], {}, [], [], [], ForeignStep().stepId, "z", None, None, {},
                         CONFIG.evaluatorVersion, CONFIG.digest, Zero, SamplePolicy([]).policyDigest, Zero);
    r.(traceDigest := ResultDigest(r))
  }

  lemma ForeignAccepted(p: Proposal)
    requires p.proposalId == Named()
    ensures Usable(Some(PriorEvaluation(Named(), ForeignResult())), p, [])
  {
    hide StepId, SamplePolicy;
    var r := ForeignResult();
    assert StepAccepted("z", r.trace, 0, false) by { assert StepRule(Other("X1")); }
    assert Paired(r.trace) by { assert r.trace[..0] == []; }
    assert Readable(r.trace);
  }

  /** The gate reports the foreign rule as changed, and its validator refuses the report. */
  lemma ForeignRuleRefused(parameters: string)
    ensures var s := SampleSnapshot(Sample(parameters, []), [], "a", Some(PriorEvaluation(Named(), ForeignResult())));
      && Evaluation(Keys, s, CONFIG).Finalized? && !UnresolvableRequirement(s)
      && Other("X1") in Evaluation(Keys, s, CONFIG).result.changedFactRules && !ResultAccepted(Evaluation(Keys, s, CONFIG).result)
  {
    hide Evaluation, Sample, SampleSnapshot, SamplePolicy, ResultAccepted, Usable, ResultDigest, UnresolvableRequirement, Denied;
    var prior := Some(PriorEvaluation(Named(), ForeignResult()));
    var p := Sample(parameters, []);
    var s := SampleSnapshot(p, [], "a", prior);
    SampleDigests(parameters, []);
    ShortSample(parameters, [], []);
    ForeignAccepted(p);
    SampleAnswered(parameters, [], [], "a", prior);
    SampleParts(p, [], "a", prior);
    PolicySealed([]);
    NothingDemanded(s);
    assert ForeignStep() in ForeignResult().trace && !FactRule(ForeignStep().rule);
    ForeignIsReported(Keys, s, CONFIG, ForeignStep());
    ResultAcceptedExactly(Keys, s, CONFIG);
  }

  // ----- a later reference hides an earlier one

  const REVIEW := EvidenceRequirement("q", "review", What, "p", F07)

  const REVIEW_RULE := PolicyRule("r", "set_demo_value", None, Allow, "", [REVIEW], [], false)

  const APPROVED := PrecedentRef("o", Zero, Zero, "set_demo_value", "demo_kv:a", Some(Approve), Some("d"), Some(Zero), Some(1.0), None,
                                 "e", Zero, None, None, None, [])

  function ValidReference(): EvidenceRef { EvidenceRef("1", "review", seq(64, i => '0')) }

  function BadReference(): EvidenceRef { EvidenceRef("2", "review", "unknown") }

  function Evidencing(parameters: string, refs: seq<EvidenceRef>): Proposal {
    var p := Sample(parameters, []).(evidenceRefs := refs);
    p.(proposalDigest := ProposalDigest(p))
  }

  /** Approved before, allowed by the policy, and with references for the one requirement. */
  function EvidenceSnapshot(parameters: string, refs: seq<EvidenceRef>): EvaluationSnapshot {
    var s := SampleSnapshot(Evidencing(parameters, refs), [REVIEW_RULE], "a", None).(precedents := [APPROVED]);
    s.(snapshotDigest := SnapshotDigest(s))
  }

  lemma EvidencingStop(parameters: string, refs: seq<EvidenceRef>)
    ensures ProposalStop(Keys, Evidencing(parameters, refs)).None?
  {
    SampleKeys(parameters, []);
  }

  lemma EvidenceParts(parameters: string, refs: seq<EvidenceRef>)
    ensures var s := EvidenceSnapshot(parameters, refs);
      && s.evaluationId == "a" && s.snapshotId == "a" && s.prior.None? && s.proposal == Evidencing(parameters, refs)
      && s.proposal.evidenceRefs == refs && s.proposal.dependencies == [] && s.dependencies == [] && LineageAccepted(s.proposal)
      && s.policy == SamplePolicy([REVIEW_RULE]) && s.profileVersion.None? && s.precedents == [APPROVED] && s.capabilities == []
      && s.exclusions == [] && s.snapshotDigest == SnapshotDigest(s)
      && s.proposal.actionTypeKey == "set_demo_value" && s.proposal.targetKey == "demo_kv:a"
  {
    hide PolicyDigest;
  }

  lemma EvidenceCanonical(parameters: string, refs: seq<EvidenceRef>)
    requires Sort(RefKey, refs) == refs
    ensures var s := EvidenceSnapshot(parameters, refs); CanonicalSnapshot(s) == s
  {
    hide PolicyDigest, SnapshotDigest, CanonicalRules, Sort, ProposalDigest, ActionDigest;
    ShortRules([REVIEW_RULE]);
    ShortSort(DependencyKey, []);
    ShortSort(PrecedentKey, [APPROVED]);
    ShortSort(ConsequenceKey, []);
    ShortSort(ExclusionKey, []);
    ShortSort(CapabilityKey, []);
  }

  lemma NothingReported(s: EvaluationSnapshot)
    requires forall x | x in s.precedents :: x.consequenceRefs == []
    ensures Reports(Approved(s, CONFIG)) == []
  {
    hide Approved, Sort, Gather, ConfigAccepted;
    PinnedThresholds(CONFIG) by { assert ConfigAccepted(CONFIG) by { PinnedConfig(); } }
    ReportMembers(s, CONFIG);
    SomeMember(Reports(Approved(s, CONFIG)));
  }

  lemma PinnedConfig()
    ensures ConfigAccepted(CONFIG)
  {}

  lemma EvidenceJudged(parameters: string, refs: seq<EvidenceRef>)
    ensures var s := EvidenceSnapshot(parameters, refs); InputStop(Keys, s, CONFIG).None? && FactStop(s, CONFIG).None?
  {
    hide EvidenceSnapshot, Evidencing, PolicyDigest, SamplePolicy, ProposalStop, Sort, Approved, SnapshotDigest, ConfigAccepted;
    var s := EvidenceSnapshot(parameters, refs);
    EvidenceParts(parameters, refs);
    EvidencingStop(parameters, refs);
    PolicySealed([REVIEW_RULE]);
    PinnedConfig();
    NothingReported(s);
  }

  lemma EvidenceAnswered(parameters: string, refs: seq<EvidenceRef>)
    requires Sort(RefKey, refs) == refs
    ensures var s := EvidenceSnapshot(parameters, refs);
      Evaluation(Keys, s, CONFIG).Finalized? && Evaluation(Keys, s, CONFIG).result.verdict == if Meets(refs, "review") then YES else MAYBE
  {
    hide EvidenceSnapshot, Evaluation, InputStop, FactStop, CanonicalSnapshot, Sort, Meets, Readable, SamplePolicy, Evidencing;
    var s := EvidenceSnapshot(parameters, refs);
    EvidenceParts(parameters, refs);
    EvidenceCanonical(parameters, refs);
    EvidenceJudged(parameters, refs);
    FinalizedExactly(Keys, s, CONFIG);
    VerdictIsDeclared(Keys, s, CONFIG);
    PolicySealed([REVIEW_RULE]);
    EvidenceDeclared(s);
  }

  /** Everything but the evidence speaks for YES. */
  lemma EvidenceDeclared(s: EvaluationSnapshot)
    requires s.policy.rules == [REVIEW_RULE] && s.precedents == [APPROVED]
    requires s.capabilities == [] && s.exclusions == [] && s.dependencies == []
    requires s.proposal.actionTypeKey == "set_demo_value" && s.proposal.targetKey == "demo_kv:a"
    ensures DeclaredVerdict(s) == if Meets(s.proposal.evidenceRefs, "review") then YES else MAYBE
  {
    hide Meets;
    assert Grants(s, REVIEW_RULE) && GovernsAs(s, APPROVED, Approve);
    assert REVIEW in REVIEW_RULE.requiredEvidence;
    assert Demands(s, REVIEW);
  }

  lemma HexDigest()
    ensures EvidenceValid(ValidReference()) && !EvidenceValid(BadReference()) && TextLess("1", "2")
  {}

  lemma OneReference()
    ensures Sort(RefKey, [ValidReference()]) == [ValidReference()] && Meets([ValidReference()], "review")
  {
    hide EvidenceValid;
    HexDigest();
    ShortSort(RefKey, [ValidReference()]);
    assert LastOfKind([ValidReference()], 0);
  }

  lemma TwoReferences()
    ensures var refs := [ValidReference(), BadReference()]; Sort(RefKey, refs) == refs && !Meets(refs, "review")
  {
    var refs := [ValidReference(), BadReference()];
    hide EvidenceValid, TextLess, KeyLess;
    HexDigest();
    ShortSort(RefKey, [BadReference()]);
    assert refs[1..] == [BadReference()];
    SingleKey(BadReference(), ValidReference());
    TextTrichotomy("1", "2");
    assert !Before(refs, 1, 0);
  }

  /** A snapshot that gets YES gets MAYBE, with the question for the requirement, when a second
      and invalid reference of the same kind is added. */
  lemma ReferenceHides(parameters: string)
    ensures var (s, t) := (EvidenceSnapshot(parameters, [ValidReference()]), EvidenceSnapshot(parameters, [ValidReference(), BadReference()]));
      && Evaluation(Keys, s, CONFIG).Finalized? && Evaluation(Keys, s, CONFIG).result.verdict == YES
      && Evaluation(Keys, t, CONFIG).Finalized? && Evaluation(Keys, t, CONFIG).result.verdict == MAYBE
      && RequirementGap(REVIEW) in Evaluation(Keys, t, CONFIG).result.gaps
  {
    hide EvidenceSnapshot, Evaluation, Sort, Meets, RequirementGap, SamplePolicy, Evidencing;
    var refs := [ValidReference(), BadReference()];
    OneReference();
    TwoReferences();
    EvidenceAnswered(parameters, [ValidReference()]);
    EvidenceAnswered(parameters, refs);
    EvidenceParts(parameters, refs);
    PolicySealed([REVIEW_RULE]);
    var t := EvidenceSnapshot(parameters, refs);
    assert Grants(t, REVIEW_RULE) && REVIEW in REVIEW_RULE.requiredEvidence;
    UnmetRaisesGap(Keys, t, CONFIG, REVIEW);
  }

  // ----- a false alarm in the report of changes

  /** Unresolved, and named like the first step of the evaluation "a". */
  function Namesake(): DependencyRef {
    DependencyRef(StepId("a", 1, F01), "", "", "null", None, StateUnresolved, Zero, [], false, false)
  }

  lemma FirstStepId(normalize: Normalizer, s: EvaluationSnapshot, config: RuleConfig)
    requires Evaluation(normalize, s, config).Finalized?
    ensures var r := Evaluation(normalize, s, config).result;
      r.trace != [] && r.trace[0].stepId == StepId(s.evaluationId, 1, F01) && r.dependencies == SortedDependencies(CanonicalSnapshot(s))
  {
    hide Evaluation, FinishedAs, StepId, Stretch, DecisiveIds, InputStop, SortedDependencies;
    var c, f, red := Finished(normalize, s, config);
    FinishedAssembled(c, config, f, red, Evaluation(normalize, s, config).result);
    FinishedFields(c, config, f, red, Evaluation(normalize, s, config).result);
  }

  /** Evaluated again as "b", nothing changes and yet F12 is reported as changed. */
  lemma FalseAlarm(parameters: string) returns (x: CheckResult, y: CheckResult)
    ensures var p := Sample(parameters, [Namesake()]);
      && Evaluation(Keys, SampleSnapshot(p, [], "a", None), CONFIG) == Finalized(x)
      && Evaluation(Keys, SampleSnapshot(p, [], "b", Some(PriorEvaluation(Named(), x))), CONFIG) == Finalized(y)
    ensures y.verdict == x.verdict && y.risk == x.risk && y.gaps == x.gaps && y.changedFactRules == {F12}
  {
    hide Evaluation, Sample, SampleSnapshot, Collides, Collisions, SameFacts, Short, ResultAccepted, SortedDependencies, Usable, Namesake;
    var (ds, p) := ([Namesake()], Sample(parameters, [Namesake()]));
    ShortSample(parameters, ds, []);
    SampleParts(p, [], "a", None);
    UsableNone(p, []);
    SamplePrior(parameters, ds, [], "a", None);
    x := Evaluation(Keys, SampleSnapshot(p, [], "a", None), CONFIG).result;
    var prior := PriorEvaluation(Named(), x);
    SampleAnswered(parameters, ds, [], "b", Some(prior));
    y := Evaluation(Keys, SampleSnapshot(p, [], "b", Some(prior)), CONFIG).result;
    SampleParts(p, [], "b", Some(prior));
    SameSample(p, [], "a", "b", Some(prior));
    NamesakeCollides(parameters);
    ReportIsExact(Keys, CONFIG, SampleSnapshot(p, [], "a", None), SampleSnapshot(p, [], "b", Some(prior)), prior);
    ReportIsEmptyOrFalse(Keys, CONFIG, SampleSnapshot(p, [], "a", None), SampleSnapshot(p, [], "b", Some(prior)), prior);
  }

  lemma ShortSample(parameters: string, ds: seq<DependencyRef>, rules: seq<PolicyRule>)
    requires |ds| <= 1 && |rules| <= 1 && forall r | r in rules :: |r.requiredEvidence| <= 1 && r.requiredCapabilityIds == []
    ensures Short(Sample(parameters, ds), rules)
  {
    SampleDigests(parameters, ds);
  }

  lemma SameSample(p: Proposal, rules: seq<PolicyRule>, id: string, next: string, prior: Option<PriorEvaluation>)
    ensures SameFacts(SampleSnapshot(p, rules, id, None), SampleSnapshot(p, rules, next, prior))
  {}

  /** The answer to a request whose policy demands nothing is valid and can be a prior. */
  lemma SamplePrior(parameters: string, ds: seq<DependencyRef>, rules: seq<PolicyRule>, id: string, prior: Option<PriorEvaluation>)
    requires Short(Sample(parameters, ds), rules) && id != "" && forall r | r in rules :: r.requiredEvidence == []
    requires Usable(prior, Sample(parameters, ds), rules) && PriorOfFactRules(SampleSnapshot(Sample(parameters, ds), rules, id, prior))
    ensures var s := SampleSnapshot(Sample(parameters, ds), rules, id, prior);
      && Evaluation(Keys, s, CONFIG).Finalized? && ResultAccepted(Evaluation(Keys, s, CONFIG).result)
      && Usable(Some(PriorEvaluation(Named(), Evaluation(Keys, s, CONFIG).result)), Sample(parameters, ds), rules)
  {
    hide Evaluation, Sample, SampleSnapshot, SamplePolicy, Readable, ResultAccepted, PriorAccepted, Short, UnresolvableRequirement, ChangedRules,
      ResultDigest, PriorOfFactRules, Named;
    var s := SampleSnapshot(Sample(parameters, ds), rules, id, prior);
    SampleAnswered(parameters, ds, rules, id, prior);
    SampleParts(Sample(parameters, ds), rules, id, prior);
    SampleDigests(parameters, ds);
    AnswerIsBound(Keys, s, CONFIG);
    AnswerIsReadable(Keys, s, CONFIG);
    PolicySealed(rules);
    NothingDemanded(s);
    ResultAcceptedExactly(Keys, s, CONFIG);
    AcceptedAsPrior(Evaluation(Keys, s, CONFIG).result);
  }

  lemma NothingDemanded(s: EvaluationSnapshot)
    requires forall r | r in s.policy.rules :: r.requiredEvidence == []
    ensures !UnresolvableRequirement(s)
  {
    hide Evidenced, Applies;
  }

  lemma NothingChanged(r: CheckResult)
    ensures ChangedRules(None, r.trace, r.gaps) == {}
  {}

  lemma AcceptedAsPrior(r: CheckResult)
    requires ResultAccepted(r)
    ensures PriorAccepted(PriorEvaluation(Named(), r), Named())
  {
    hide TraceAccepted, GapsAccepted, ResultDigest, FactRule;
  }

  /** The answer to a request lists its dependencies and starts with its own first step. */
  lemma SampleTrace(parameters: string, ds: seq<DependencyRef>, id: string, prior: Option<PriorEvaluation>)
    requires |ds| <= 1 && id != "" && Usable(prior, Sample(parameters, ds), [])
    ensures var o := Evaluation(Keys, SampleSnapshot(Sample(parameters, ds), [], id, prior), CONFIG);
      && o.Finalized? && o.result.dependencies == ds && o.result.trace != []
      && o.result.trace[0].stepId == StepId(id, 1, F01)
  {
    hide Evaluation, Sample, SampleSnapshot, Usable, CanonicalSnapshot, StepId, Sort, Short;
    var p := Sample(parameters, ds);
    var s := SampleSnapshot(p, [], id, prior);
    ShortSample(parameters, ds, []);
    SampleDigests(parameters, ds);
    SampleAnswered(parameters, ds, [], id, prior);
    SampleCanonical(p, [], id, prior);
    SampleParts(p, [], id, prior);
    FirstStepId(Keys, s, CONFIG);
    ShortSort(DependencyKey, ds);
  }

  lemma NamesakeText()
    ensures Namesake().state == StateUnresolved && Namesake().dependencyId == StepId("a", 1, F01)
    ensures Namesake().dependencyId != "" && Namesake().dependencyId[0] == 'a'
  {}

  /** The namesake collides with a step of "a", and with none when the trace is numbered for "b". */
  lemma NamesakeCollides(parameters: string)
    ensures var o := Evaluation(Keys, SampleSnapshot(Sample(parameters, [Namesake()]), [], "a", None), CONFIG);
      && o.Finalized? && Collides(o.result.trace, o.result.dependencies)
      && |o.result.trace| <= TRACE_LIMIT && !Collides(Renumbered("b", o.result.trace), o.result.dependencies)
  {
    hide Evaluation, Sample, SampleSnapshot, Usable, Namesake, TraceAccepted;
    var p := Sample(parameters, [Namesake()]);
    NamesakeText();
    UsableNone(p, []);
    SampleTrace(parameters, [Namesake()], "a", None);
    FinishedTraceAccepted(Keys, SampleSnapshot(p, [], "a", None), CONFIG);
    var x := Evaluation(Keys, SampleSnapshot(p, [], "a", None), CONFIG).result;
    TraceWithin(x);
    assert x.trace[0] in x.trace && Namesake() in x.dependencies;
    forall t | t in Renumbered("b", x.trace) ensures t.stepId != Namesake().dependencyId {
      assert t.stepId[0] == 'b';
    }
  }

  lemma TraceWithin(r: CheckResult)
    requires TraceAccepted(r.evaluationId, r.trace, Some(r.becauseStepId), false)
    ensures |r.trace| <= TRACE_LIMIT
  {
    hide StepAccepted, RulesOnce, Paired;
  }

  lemma UsableNone(p: Proposal, rules: seq<PolicyRule>)
    ensures Usable(None, p, rules)
  {}
}
