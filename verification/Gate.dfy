/** The four-valued gate: validation of a frozen snapshot, the fact rules in order, the reducer
    with its precedence R1, R2, R3, R4, and the finished trace. */
module Gate {
  import opened Canonical
  import opened Changes
  import opened GateRules
  import opened Json
  import opened Models
  import opened Ordering
  import opened Sequences
  import opened Traces

  datatype Outcome = Finalized(result: CheckResult) | Blocked(blocked: BlockedResult)

  /** The versioned key normalization; none when a text normalizes to nothing. */
  type Normalizer = string -> Option<string>

  const PINNED := RuleConfig(Zero, "gam-gate/1.1", 0.85, 0.5, 5, true, true, true, "gam-normalize/1.1")
  // ----- digests

  function ConfigDigest(c: RuleConfig): Digest { OfConfig(c.(digest := Zero)) }

  function ActionDigest(p: Proposal): Digest {
    OfAction(p.actionType, p.actionTypeKey, p.target, p.targetKey, p.parametersJson)
  }

  function ProposalDigest(p: Proposal): Digest { OfProposal(p.(proposalDigest := Zero)) }

  function PolicyDigest(p: PolicyInput): Digest { OfPolicy(p.policyVersion, CanonicalRules(p.rules)) }

  // ----- validation

  predicate ConfigAccepted(c: RuleConfig) {
    c.(digest := Zero) == PINNED && c.digest == ConfigDigest(c)
  }

  /** The ordinals of a prior trace, up to the first step that does not reproduce. */
  function PriorStepsStop(evaluationId: string, trace: seq<TraceStep>, i: nat): Option<ErrorCode>
    requires i <= |trace|
    decreases |trace| - i
  {
    if i == |trace| then None
    else
      match MakeStepId(evaluationId, i + 1, trace[i].rule)
      case None => Some(InternalEvaluatorError)
      case Some(id) => if id != trace[i].stepId then Some(InvalidPriorTrace) else PriorStepsStop(evaluationId, trace, i + 1)
  }

  function Reducers(trace: seq<TraceStep>): seq<TraceStep> { Filter(IsReducerStep, trace) }

  function IsReducerStep(s: TraceStep): bool { s.ReducerStep? }

  /** The weaker check of a prior trace that stands in when the full validation fails. */
  function ExactPriorStop(s: EvaluationSnapshot): Option<ErrorCode> {
    match s.prior
    case None => None
    case Some(p) =>
      var trace := p.result.trace;
      if p.proposalId != s.proposal.proposalId || p.result.traceDigest != ResultDigest(p.result) || trace == []
         || p.result.becauseStepId != trace[|trace| - 1].stepId || trace[|trace| - 1].rule != F12 then Some(InvalidPriorTrace)
      else if |Reducers(trace)| != 1 || !Reducers(trace)[0].rule.IsReducer() then Some(InvalidPriorTrace)
      else PriorStepsStop(p.result.evaluationId, trace, 0)
  }

  ghost function SnapshotStop(s: EvaluationSnapshot): Option<ErrorCode> {
    if SnapshotAccepted(s) then None
    else if s.prior.None? then Some(InvalidSnapshot)
    else if s.snapshotDigest != SnapshotDigest(s) then Some(InvalidSnapshot)
    else ExactPriorStop(s)
  }

  function KeyStop(normalize: Normalizer, display: string, key: string, mismatch: ErrorCode): Option<ErrorCode> {
    match normalize(display)
    case None => Some(EmptyNormalizedKey)
    case Some(k) => if k != key then Some(mismatch) else None
  }

  function First(a: Option<ErrorCode>, b: Option<ErrorCode>): Option<ErrorCode> { if a.Some? then a else b }

  function Refuse(condition: bool, stop: ErrorCode): Option<ErrorCode> { if condition then Some(stop) else None }

  const UNIT_SEPARATOR := 31 as char

  function ProposalStop(normalize: Normalizer, p: Proposal): Option<ErrorCode> {
    First(KeyStop(normalize, p.actionType, p.actionTypeKey,
                  ActionKeyMismatch),
    First(KeyStop(normalize, p.target, p.targetKey,
                  TargetKeyMismatch),
    First(Refuse(UNIT_SEPARATOR in p.actionTypeKey || UNIT_SEPARATOR in p.targetKey,
                 ClassKeyMismatch),
    First(Refuse(p.actionDigest != ActionDigest(p),
                 ActionDigestMismatch),
          Refuse(p.proposalDigest != ProposalDigest(p),
                 ProposalDigestMismatch)))))
  }

  function ExclusionsStop(normalize: Normalizer, es: seq<ExclusionRef>): Option<ErrorCode> {
    var invalid := InvalidExclusion;
    if es == [] then None
    else
      First(KeyStop(normalize, es[0].actionType, es[0].actionTypeKey, invalid),
      First(KeyStop(normalize, es[0].target, es[0].targetKey, invalid),
      First(Refuse(es[0].sourceDecisionValue != Reject, invalid),
            ExclusionsStop(normalize, es[1..]))))
  }

  function DependencyId(d: DependencyRef): string { d.dependencyId }
  function TextKey(x: string): Key { [x] }

  predicate SameDependencyIds(a: seq<DependencyRef>, b: seq<DependencyRef>) {
    Sort(TextKey, Each(DependencyId, a)) == Sort(TextKey, Each(DependencyId, b))
  }

  function ContentStop(normalize: Normalizer, s: EvaluationSnapshot, config: RuleConfig): Option<ErrorCode> {
    First(ProposalStop(normalize, s.proposal),
    First(Refuse(s.policy.policyDigest != PolicyDigest(s.policy),
                 PolicyDigestMismatch),
    First(Refuse(s.policy.policyVersion == "", InvalidPolicy),
    First(Refuse(s.profileVersion == Some(""), InvalidProfile),
    First(Refuse(|s.precedents| > config.precedentTopK,
                 PrecedentLimitExceeded),
    First(ExclusionsStop(normalize, s.exclusions),
          Refuse(!SameDependencyIds(s.proposal.dependencies, s.dependencies),
                 DependencySnapshotMismatch)))))))
  }

  function BindingStop(s: EvaluationSnapshot, config: RuleConfig): Option<ErrorCode> {
    match s.prior
    case None => None
    case Some(p) =>
      Refuse(p.result.evaluatorVersion != config.evaluatorVersion || p.result.ruleConfigDigest != config.digest
             || p.result.policyDigest != s.policy.policyDigest,
             PriorBindingMismatch)
  }

  /** The first reason not to judge a canonical snapshot at all. */
  ghost function InputStop(normalize: Normalizer, s: EvaluationSnapshot, config: RuleConfig): Option<ErrorCode> {
    First(Refuse(!ConfigAccepted(config), InvalidRuleConfig),
    First(SnapshotStop(s),
    First(ContentStop(normalize, s, config),
          BindingStop(s, config))))
  }

  method ValidateSnapshot(s: EvaluationSnapshot) returns (ok: bool)
    ensures ok <==> SnapshotAccepted(s)
  {
    hide TraceAccepted;
    var prior := true;
    if s.prior.Some? {
      var p := s.prior.value;
      var structured := ValidateTrace(p.result.evaluationId, p.result.trace, Some(p.result.becauseStepId), false);
      prior := p.proposalId == s.proposal.proposalId && GapsAccepted(p.result.gaps)
        && (forall q | q in p.result.changedFactRules :: FactRule(q)) && structured
        && p.result.traceDigest == ResultDigest(p.result);
    }
    return LineageAccepted(s.proposal) && s.evaluationId != "" && s.snapshotId != "" && prior
      && (forall p | p in s.precedents :: PrecedentAccepted(p))
      && DistinctDependencies(s.dependencies)
      && s.snapshotDigest == SnapshotDigest(s);
  }

  method ValidateInput(normalize: Normalizer, s: EvaluationSnapshot, config: RuleConfig) returns (stop: Option<ErrorCode>)
    ensures stop == InputStop(normalize, s, config)
  {
    hide SnapshotAccepted, ExactPriorStop, ContentStop, BindingStop, ConfigAccepted;
    if !ConfigAccepted(config) {
      return Some(InvalidRuleConfig);
    }
    var valid := ValidateSnapshot(s);
    if !valid {
      if s.prior.None? || s.snapshotDigest != SnapshotDigest(s) { return Some(InvalidSnapshot); }
      var prior := ExactPriorStop(s);
      if prior.Some? { return prior; }
    }
    return First(ContentStop(normalize, s, config), BindingStop(s, config));
  }

  // ----- the loops over the rows of each rule

  method ExamineExclusions(p: Proposal, es: seq<ExclusionRef>) returns (f: Findings)
    ensures f == ExclusionFindings(p, es)
  {
    f := NOTHING;
    if es != [] {
      var rows, someSame := [], false;
      for i := 0 to |es|
        invariant rows == Each(RowOfExclusion(p), es[..i])
        invariant someSame == SomeExcludes(p, es[..i])
      {
        EachStep(RowOfExclusion(p), es, i);
        assert es[..i + 1] == es[..i] + [es[i]];
        someSame := someSame || Excludes(p)(es[i]);
        rows := rows + [RowOfExclusion(p)(es[i])];
      }
      assert es[..|es|] == es;
      if someSame { f := f.(r1 := f.r1 + [ActiveExclusionSame]); }
      f := f.(steps := f.steps + [Step(F03, SameNotSame, if someSame then SAME else NOT_SAME, p.proposalId,
                                       Each(ExclusionId, es), Exclusions(someSame, rows))]);
    }
  }

  lemma {:induction false} SimilarityCounts(xs: seq<PrecedentRef>)
    ensures |Filter(HasNoSimilarity, xs)| > 0 <==> SomeUnresolved(xs)
    ensures |Filter(HasNoSimilarity, xs)| <= |xs|
    ensures |Filter(HasNoSimilarity, xs)| == |xs| <==> AllUnresolved(xs)
  {
    if xs != [] {
      SimilarityCounts(xs[..|xs| - 1]);
      assert xs == xs[..|xs| - 1] + [xs[|xs| - 1]];
    }
  }

  method ExamineRetrieval(p: Proposal, config: RuleConfig, xs: seq<PrecedentRef>)
    returns (near: seq<PrecedentRef>, f: Findings)
    ensures near == Filter(IsNear(config), xs) && f == RetrievalFindings(p, config, xs)
  {
    hide NearnessOf, SimilarityGap, Gather, Filter, SomeUnresolved, AllUnresolved;
    LoopStart(xs);
    FilterNone(IsNear(config));
    FilterNone(HasNoSimilarity);
    FilterNone(HasSimilarity);
    GatherNone(SimilarityPredicates);
    GatherNone(SimilarityGaps);
    near := [];
    var rows, unresolved, valid := [], 0, 0;
    var r2: seq<Predicate>, gaps: seq<EvidenceGap> := [], [];
    for i := 0 to |xs|
      invariant near == Filter(IsNear(config), xs[..i])
      invariant rows == Each(RowOfCandidate(config), xs[..i])
      invariant unresolved == |Filter(HasNoSimilarity, xs[..i])| && valid == |Filter(HasSimilarity, xs[..i])|
      invariant r2 == Gather(SimilarityPredicates, xs[..i]) && gaps == Gather(SimilarityGaps, xs[..i])
    {
      var x := xs[i];
      FilterStep(IsNear(config), xs, i);
      FilterStep(HasNoSimilarity, xs, i);
      FilterStep(HasSimilarity, xs, i);
      EachStep(RowOfCandidate(config), xs, i);
      GatherStep(SimilarityPredicates, xs, i);
      GatherStep(SimilarityGaps, xs, i);
      if x.similarity.None? {
        unresolved := unresolved + 1;
        r2 := r2 + [SimilarityUnresolved(x.proposalId)];
        gaps := gaps + [SimilarityGap(x.proposalId)];
        NotNear(config, x);
      } else {
        valid := valid + 1;
        if NearnessOf(config, x) == Near { near := near + [x]; }
      }
      rows := rows + [CandidateRow(x.proposalId, x.evaluationId, x.similarity, NearnessOf(config, x), x.similarityErrorCode)];
    }
    SimilarityCounts(xs);
    f := Findings([Step(F04, NearFar, if near != [] then NEAR else FAR, p.proposalId, Each(ProposalId, xs),
                        Retrieval(|xs|, valid, unresolved, near != [], unresolved > 0,
                                  xs != [] && unresolved == |xs|, rows))], [], r2, [], gaps);
  }

  lemma NotNear(config: RuleConfig, x: PrecedentRef)
    requires x.similarity.None?
    ensures NearnessOf(config, x) == Unknown
  {}

  method ExamineIdentity(p: Proposal, near: seq<PrecedentRef>) returns (qualifying: seq<PrecedentRef>, f: Findings)
    ensures qualifying == Filter(IsSame(p), near) && f == IdentityFindings(p, near)
  {
    qualifying, f := [], NOTHING;
    if near != [] {
      var rows := [];
      for i := 0 to |near|
        invariant qualifying == Filter(IsSame(p), near[..i])
        invariant rows == Each(RowOfIdentity(p), near[..i])
      {
        FilterStep(IsSame(p), near, i);
        EachStep(RowOfIdentity(p), near, i);
        if IsSame(p)(near[i]) { qualifying := qualifying + [near[i]]; }
        rows := rows + [RowOfIdentity(p)(near[i])];
      }
      assert near[..|near|] == near;
      f := NOTHING.(steps := [Step(F05, SameNotSame, if qualifying != [] then SAME else NOT_SAME, p.proposalId,
                                   Each(ProposalId, near), Identity(qualifying != [], rows))]);
    }
  }

  method ExamineEvidence(p: Proposal, refs: seq<EvidenceRef>, qs: seq<EvidenceRequirement>) returns (f: Findings)
    ensures f == EvidenceFindings(p, refs, qs)
  {
    hide Satisfied, RequirementGap, Bound, Gather;
    LoopStart(qs);
    GatherNone(BoundRef(refs));
    GatherNone(RequirementPredicates(refs));
    GatherNone(RequirementGaps(refs));
    var rows, missing := [], false;
    var evidence: seq<EvidenceRef>, r2: seq<Predicate>, gaps: seq<EvidenceGap> := [], [], [];
    for i := 0 to |qs|
      invariant rows == Each(RowOfRequirement(refs), qs[..i])
      invariant missing == !AllSatisfied(refs, qs[..i])
      invariant evidence == Gather(BoundRef(refs), qs[..i])
      invariant r2 == Gather(RequirementPredicates(refs), qs[..i]) && gaps == Gather(RequirementGaps(refs), qs[..i])
    {
      var q := qs[i];
      EachStep(RowOfRequirement(refs), qs, i);
      GatherStep(BoundRef(refs), qs, i);
      GatherStep(RequirementPredicates(refs), qs, i);
      GatherStep(RequirementGaps(refs), qs, i);
      assert qs[..i + 1] == qs[..i] + [q];
      var bound := Bound(refs, q.kind);
      if bound.Some? { evidence := evidence + [bound.value]; }
      rows := rows + [RowOfRequirement(refs)(q)];
      if !Satisfied(refs, q) {
        missing := true;
        r2 := r2 + [EvidenceMissing(q.requirementId)];
        gaps := gaps + [RequirementGap(q)];
      }
    }
    f := Findings([Descriptor(F07, TogetherAlone, if missing then ALONE else TOGETHER, p.proposalId,
                              Each(RequirementId, qs), Evidence(!missing, rows), evidence)], [], r2, [], gaps);
  }

  method CheckReports(config: RuleConfig, reports: seq<Report>) returns (ok: bool)
    ensures ok <==> forall r | r in reports :: ReportBound(config, r)
  {
    for i := 0 to |reports|
      invariant forall k | 0 <= k < i :: ReportBound(config, reports[k])
    {
      if !ReportBound(config, reports[i]) {
        assert reports[i] in reports;
        return false;
      }
    }
    return true;
  }

  method ExamineReports(config: RuleConfig, reports: seq<Report>)
    returns (rows: seq<ReportRow>, someMore: bool, warnings: seq<string>, r2: seq<Predicate>, gaps: seq<EvidenceGap>)
    ensures rows == Each(RowOfReport(config), reports)
    ensures someMore == SomeMore(config, reports)
    ensures warnings == Gather(WarningsOf(config), reports)
    ensures r2 == Gather(DivergencePredicates(config), reports) && gaps == Gather(DivergenceGaps(config), reports)
  {
    hide IsMore, DivergenceGap, Gather;
    LoopStart(reports);
    GatherNone(WarningsOf(config));
    GatherNone(DivergencePredicates(config));
    GatherNone(DivergenceGaps(config));
    rows, someMore, warnings, r2, gaps := [], false, [], [], [];
    for i := 0 to |reports|
      invariant rows == Each(RowOfReport(config), reports[..i])
      invariant someMore == SomeMore(config, reports[..i])
      invariant warnings == Gather(WarningsOf(config), reports[..i])
      invariant r2 == Gather(DivergencePredicates(config), reports[..i]) && gaps == Gather(DivergenceGaps(config), reports[..i])
    {
      var r := reports[i];
      EachStep(RowOfReport(config), reports, i);
      GatherStep(WarningsOf(config), reports, i);
      GatherStep(DivergencePredicates(config), reports, i);
      GatherStep(DivergenceGaps(config), reports, i);
      assert reports[..i + 1] == reports[..i] + [r];
      if IsMore(config, r) {
        someMore := true;
        warnings := warnings + [r.1.consequenceId];
        r2 := r2 + [HighDivergence(r.1.consequenceId)];
        gaps := gaps + [DivergenceGap(r.1.consequenceId)];
      }
      rows := rows + [RowOfReport(config)(r)];
    }
  }

  method ExamineConsequences(p: Proposal, config: RuleConfig, required: bool, approved: seq<PrecedentRef>)
    returns (warnings: seq<string>, f: Findings)
    requires approved != []
    ensures warnings == Warnings(config, approved) && f == ConsequenceFindings(p, config, required, approved)
  {
    hide Gather, Each, Reports, MissingIds, IsMore;
    var reports, missing := Reports(approved), MissingIds(approved);
    var rows, someMore, high, r2, gaps := ExamineReports(config, reports);
    if required {
      var lacking := ExamineMissing(missing);
      r2, gaps := r2 + lacking.r2, gaps + lacking.gaps;
    }
    warnings := high;
    f := Findings([Step(F08, MoreLess, if someMore then MORE else LESS, p.proposalId, Each(ProposalId, approved),
                        Consequences(Each(ProposalId, approved), missing, |reports|, someMore,
                                     required && missing != [], rows))], [], r2, [], gaps);
  }

  method ExamineMissing(missing: seq<string>) returns (f: Findings)
    ensures f == NOTHING.(r2 := Gather(MissingPredicates, missing), gaps := Gather(MissingGaps, missing))
  {
    hide ObservationGap, OutcomeGap;
    f := NOTHING;
    for i := 0 to |missing|
      invariant f == NOTHING.(r2 := Gather(MissingPredicates, missing[..i]), gaps := Gather(MissingGaps, missing[..i]))
    {
      GatherStep(MissingPredicates, missing, i);
      GatherStep(MissingGaps, missing, i);
      f := f.(r2 := f.r2 + [MissingConsequence(missing[i])], gaps := f.gaps + [ObservationGap(missing[i]), OutcomeGap(missing[i])]);
    }
    assert missing[..|missing|] == missing;
  }

  /** The capability dictionary; a repeated identity stops the evaluation. */
  method IndexCapabilities(facts: seq<CapabilityFact>) returns (duplicate: bool, byId: map<string, CapabilityFact>)
    ensures duplicate <==> DuplicateCapability(facts)
    ensures !duplicate ==> forall id :: FactOf(facts, id) == if id in byId then Some(byId[id]) else None
  {
    duplicate, byId := false, map[];
    for i := 0 to |facts|
      invariant !duplicate && !DuplicateCapability(facts[..i])
      invariant forall id :: FactOf(facts[..i], id) == if id in byId then Some(byId[id]) else None
      invariant forall id :: id in byId <==> exists k | 0 <= k < i :: facts[k].capabilityId == id
    {
      var c := facts[i];
      if c.capabilityId in byId { return true, byId; }
      TakeStep(facts, i);
      byId := byId[c.capabilityId := c];
    }
    assert facts[..|facts|] == facts;
  }

  method ExamineCapabilities(p: Proposal, ghost facts: seq<CapabilityFact>, byId: map<string, CapabilityFact>, ids: seq<string>)
    returns (f: Findings)
    requires forall id :: FactOf(facts, id) == if id in byId then Some(byId[id]) else None
    ensures f == CapabilityFindings(p, facts, ids)
  {
    hide FactOf;
    f := NOTHING;
    if ids != [] {
      var rows, someFalse, someUnresolved, someMissing, evidence := ReadCapabilities(facts, byId, ids);
      var r1, r2, gaps := JudgeCapabilities(facts, byId, ids);
      f := Findings([Descriptor(F09, CanCannot, if someFalse || someUnresolved || someMissing then CANNOT else CAN,
                                p.proposalId, ids, Capabilities(someFalse, someUnresolved, someMissing, rows), evidence)],
                    r1, r2, [], gaps);
    }
  }

  /** The recorded part of the capability loop. */
  method ReadCapabilities(ghost facts: seq<CapabilityFact>, byId: map<string, CapabilityFact>, ids: seq<string>)
    returns (rows: seq<CapabilityRow>, someFalse: bool, someUnresolved: bool, someMissing: bool, evidence: seq<EvidenceRef>)
    requires forall id :: FactOf(facts, id) == if id in byId then Some(byId[id]) else None
    ensures rows == Each(RowOfCapability(facts), ids)
    ensures evidence == Gather(CapabilityEvidence(facts), ids)
    ensures someFalse == SomeInState(facts, ids, Some(StateFalse))
    ensures someUnresolved == SomeInState(facts, ids, Some(StateUnresolved))
    ensures someMissing == SomeInState(facts, ids, None)
  {
    hide FactOf;
    rows, evidence, someFalse, someUnresolved, someMissing := [], [], false, false, false;
    for i := 0 to |ids|
      invariant rows == Each(RowOfCapability(facts), ids[..i])
      invariant evidence == Gather(CapabilityEvidence(facts), ids[..i])
      invariant someFalse == SomeInState(facts, ids[..i], Some(StateFalse))
      invariant someUnresolved == SomeInState(facts, ids[..i], Some(StateUnresolved))
      invariant someMissing == SomeInState(facts, ids[..i], None)
    {
      EachStep(RowOfCapability(facts), ids, i);
      GatherStep(CapabilityEvidence(facts), ids, i);
      SomeInStateStep(facts, ids, i);
      var id := ids[i];
      if id !in byId {
        someMissing := true;
        rows := rows + [CapabilityRow(id, None)];
      } else {
        someFalse := someFalse || byId[id].state == StateFalse;
        someUnresolved := someUnresolved || byId[id].state == StateUnresolved;
        evidence := evidence + byId[id].evidenceRefs;
        rows := rows + [CapabilityRow(id, Some(byId[id].state))];
      }
    }
    assert ids[..|ids|] == ids;
  }

  /** The deciding part of the capability loop. */
  method JudgeCapabilities(ghost facts: seq<CapabilityFact>, byId: map<string, CapabilityFact>, ids: seq<string>)
    returns (r1: seq<Predicate>, r2: seq<Predicate>, gaps: seq<EvidenceGap>)
    requires forall id :: FactOf(facts, id) == if id in byId then Some(byId[id]) else None
    ensures r1 == Gather(FalseCapability(facts), ids) && r2 == Gather(OpenCapability(facts), ids)
    ensures gaps == Gather(CapabilityGaps(facts), ids)
  {
    hide FactOf, CapabilityIdentityGap, CapabilityProofGap, CapabilityStateGap;
    r1, r2, gaps := [], [], [];
    for i := 0 to |ids|
      invariant r1 == Gather(FalseCapability(facts), ids[..i]) && r2 == Gather(OpenCapability(facts), ids[..i])
      invariant gaps == Gather(CapabilityGaps(facts), ids[..i])
    {
      GatherStep(FalseCapability(facts), ids, i);
      GatherStep(OpenCapability(facts), ids, i);
      GatherStep(CapabilityGaps(facts), ids, i);
      var id := ids[i];
      if id !in byId {
        r2, gaps := r2 + [CapabilityMissing(id)], gaps + [CapabilityIdentityGap(id), CapabilityProofGap(id)];
      } else if byId[id].state == StateFalse {
        r1 := r1 + [CapabilityFalse(id)];
      } else if byId[id].state == StateUnresolved {
        r2, gaps := r2 + [CapabilityUnresolved(id)], gaps + [CapabilityStateGap(id)];
      }
    }
    assert ids[..|ids|] == ids;
  }

  lemma SomeInStateStep(facts: seq<CapabilityFact>, ids: seq<string>, i: nat)
    requires i < |ids|
    ensures forall state :: SomeInState(facts, ids[..i + 1], state) <==> SomeInState(facts, ids[..i], state) || StateOf(facts, ids[i]) == state
  {
    hide StateOf;
    assert ids[..i + 1] == ids[..i] + [ids[i]];
    forall state
      ensures SomeInState(facts, ids[..i + 1], state) <==> SomeInState(facts, ids[..i], state) || StateOf(facts, ids[i]) == state
    {
      assert forall id :: id in ids[..i + 1] <==> id in ids[..i] || id == ids[i];
    }
  }

  method ExamineDependencies(ds: seq<DependencyRef>) returns (f: Findings)
    ensures f == DependencyFindings(ds)
  {
    hide DependencyStateGap, DependencyProofGap, FormulaStep;
    var steps: seq<Descriptor>, gaps: seq<EvidenceGap> := [], [];
    var r1: seq<Predicate>, r2: seq<Predicate>, r3: seq<Predicate> := [], [], [];
    for i := 0 to |ds|
      invariant steps == Gather(FormulaSteps, ds[..i]) && gaps == Gather(DependencyGaps, ds[..i])
      invariant r1 == Gather(FalseDependency, ds[..i]) && r2 == Gather(OpenDependency, ds[..i])
      invariant r3 == Gather(ConditionalDependency, ds[..i])
    {
      GatherStep(FormulaSteps, ds, i);
      GatherStep(FalseDependency, ds, i);
      GatherStep(OpenDependency, ds, i);
      GatherStep(ConditionalDependency, ds, i);
      GatherStep(DependencyGaps, ds, i);
      var d := ds[i];
      steps := steps + [FormulaStep(d, false), FormulaStep(d, true)];
      if d.state == StateFalse {
        r1 := r1 + [DependencyFalse(d.dependencyId)];
      } else if d.state == StateUnresolved {
        if d.necessaryForYes && d.sufficientIfTrue {
          r3 := r3 + [CompleteFormula(d.dependencyId)];
        } else {
          r2, gaps := r2 + [IncompleteFormula(d.dependencyId)],
                      gaps + [DependencyStateGap(d.dependencyId), DependencyProofGap(d.dependencyId)];
        }
      }
    }
    assert ds[..|ds|] == ds;
    f := Findings(steps, r1, r2, r3, gaps);
  }

  // ----- the reducer

  datatype Reduction = Reduction(rule: RuleName, verdict: Verdict, risk: Risk, gaps: set<EvidenceGap>, decisive: set<RuleName>)

  function RulesOf(qs: seq<Predicate>): set<RuleName> { set q | q in qs :: q.Rule() }

  function GapSet(gs: seq<EvidenceGap>): set<EvidenceGap> { set g | g in gs }

  /** The conjunction under which R4 answers YES. */
  predicate AllClear(s: EvaluationSnapshot, config: RuleConfig) {
    && AllowRules(s) != []
    && Approved(s, config) != []
    && AllSatisfied(Sort(RefKey, s.proposal.evidenceRefs), Requirements(s))
    && (ConsequenceRequired(config, AllowRules(s)) ==> forall x | x in Approved(s, config) :: x.consequenceRefs != [])
    && (forall x | x in Approved(s, config) :: forall c | c in x.consequenceRefs :: c.divergence < config.divergenceThreshold)
    && (forall id | id in RequiredCapabilities(AllowRules(s)) :: StateOf(s.capabilities, id) == Some(StateTrue))
    && (forall d | d in SortedDependencies(s) :: d.state == StateTrue)
  }

  /** R1 before R2 before R3 before R4; the early additions of the fact rules to the decisive
      set repeat rules of R1 predicates. */
  function Reduce(s: EvaluationSnapshot, config: RuleConfig, f: Findings): Option<Reduction> {
    if f.r1 != [] then Some(Reduction(R1, NO, HIGH, {}, {F01, F11} + RulesOf(f.r1)))
    else if f.r2 != [] then
      var gaps := GapSet(f.gaps);
      Some(Reduction(R2, MAYBE, if exists q | q in f.r2 :: q.HighDivergence? then HIGH else MEDIUM, gaps,
                     {F01, F11} + (set g | g in gaps :: g.resolutionRule) + RulesOf(f.r2)))
    else if f.r3 != [] then Some(Reduction(R3, IFF, MEDIUM, {}, {F01, F11, F10}))
    else if AllClear(s, config) then
      Some(Reduction(R4, YES, LOW, {},
        {F01, F11, F02, F04, F05, F06, F07}
        + (if Approved(s, config) != [] then {F08} else {})
        + (if RequiredCapabilities(AllowRules(s)) != [] then {F09} else {})
        + (if s.dependencies != [] then {F10} else {})))
    else None
  }

  // ----- the finished trace

  function Numbered(evaluationId: string, ds: seq<Descriptor>): (r: seq<TraceStep>)
    requires |ds| <= TRACE_LIMIT
    ensures |r| == |ds|
  {
    seq(|ds|, i requires 0 <= i < |ds| =>
      OperatorStep(StepId(evaluationId, i + 1, ds[i].rule), ds[i].rule, ds[i].family, ds[i].pole, ds[i].subjectRef,
                   ds[i].objectRefs, {}, ds[i].fact, Sort(RefKey, ds[i].evidenceRefs)))
  }

  function InRules(rules: set<RuleName>): TraceStep -> bool { (t: TraceStep) => t.rule in rules }
  function StepIdOf(t: TraceStep): string { t.stepId }
  function IsUnresolved(d: DependencyRef): bool { d.state == StateUnresolved }

  function DecisiveIds(steps: seq<TraceStep>, rules: set<RuleName>): seq<string> {
    Each(StepIdOf, Filter(InRules(rules), steps))
  }

  function FullTrace(s: EvaluationSnapshot, f: Findings, red: Reduction): (r: seq<TraceStep>)
    requires |f.steps| + 2 <= TRACE_LIMIT
    ensures |r| == |f.steps| + 2
  {
    var e := s.evaluationId;
    var steps := Numbered(e, f.steps);
    var decisive := DecisiveIds(steps, red.decisive);
    var reducer := ReducerStep(
      StepId(e, |steps| + 1, red.rule), red.rule, EverySome, if red.rule == R4 then EVERY else SOME,
      decisive, Reduced(red.verdict, red.risk, decisive));
    var because := OperatorStep(
      StepId(e, |steps| + 2, F12), F12, Because, BECAUSE, s.proposal.proposalId,
      [reducer.stepId] + decisive + Each(DependencyId, Filter(IsUnresolved, SortedDependencies(s))),
      red.gaps, Conclusion(red.verdict, red.risk), []);
    steps + [reducer, because]
  }

  function Finish(s: EvaluationSnapshot, config: RuleConfig, priorId: Option<string>, f: Findings, red: Reduction): CheckResult
    requires |f.steps| + 2 <= TRACE_LIMIT
  {
    var trace := FullTrace(s, f, red);
    var result := CheckResult(
      red.verdict, red.risk, trace, red.gaps, SortedDependencies(s), Each(ProposalId, SortedPrecedents(s)),
      Sort(TextKey, Warnings(config, Approved(s, config))), trace[|trace| - 1].stepId, s.evaluationId, s.profileVersion,
      priorId, ChangedRules(s.prior, trace, red.gaps), config.evaluatorVersion, config.digest, s.snapshotDigest,
      s.policy.policyDigest, Zero);
    result.(traceDigest := ResultDigest(result))
  }

  // ----- the whole evaluation

  datatype Judged = Judged(result: CheckResult) | Stopped(stop: ErrorCode)

  /** The stops inside the fact rules. */
  function FactStop(s: EvaluationSnapshot, config: RuleConfig): Option<ErrorCode> {
    First(Refuse(exists r | r in Reports(Approved(s, config)) :: !ReportBound(config, r), InvalidConsequence),
          Refuse(DuplicateCapability(s.capabilities), DuplicatedCapability))
  }

  function AllFindings(s: EvaluationSnapshot, config: RuleConfig, priorId: Option<string>): Findings {
    var facts := FactFindings(s, config, priorId);
    facts.Then(AggregateFindings(s.proposal, facts))
  }

  function Judgement(s: EvaluationSnapshot, config: RuleConfig, priorId: Option<string>): Judged {
    match FactStop(s, config)
    case Some(stop) => Stopped(stop)
    case None => Conclude(s, config, priorId, AllFindings(s, config, priorId))
  }

  function Conclude(s: EvaluationSnapshot, config: RuleConfig, priorId: Option<string>, f: Findings): Judged {
    match Reduce(s, config, f)
    case None => Stopped(ReducerNonTotal)
    case Some(red) =>
      if |f.steps| + 2 > TRACE_LIMIT then Stopped(TraceLimitExceeded)
      else if s.evaluationId == "" || (s.prior.Some? && !Readable(s.prior.value.result.trace)) then Stopped(InternalEvaluatorError)
      else Judged(Finish(s, config, priorId, f, red))
  }

  function PriorId(s: EvaluationSnapshot): Option<string> {
    match s.prior case None => None case Some(p) => Some(p.result.evaluationId)
  }

  function BlockedOf(s: EvaluationSnapshot, config: RuleConfig, stop: ErrorCode, priorId: Option<string>): BlockedResult {
    var e := if s.evaluationId == "" then "blocked-evaluation" else s.evaluationId;
    var subject := if s.proposal.proposalId == "" then "unbound-proposal" else s.proposal.proposalId;
    var b := BlockedResult(
      e, priorId, stop,
      [OperatorStep(StepId(e, 1, F01), F01, This, THIS, subject, [], {}, BlockedEarly, [])],
      if config.evaluatorVersion == "" then "gam-gate/1.1" else config.evaluatorVersion,
      config.digest, s.snapshotDigest, s.policy.policyDigest, Zero);
    b.(traceDigest := BlockedDigest(b))
  }

  ghost function CanonicalEvaluation(normalize: Normalizer, s: EvaluationSnapshot, config: RuleConfig): Outcome {
    match InputStop(normalize, s, config)
    case Some(stop) => Blocked(BlockedOf(s, config, stop, None))
    case None =>
      match Judgement(s, config, PriorId(s))
      case Stopped(stop) => Blocked(BlockedOf(s, config, stop, PriorId(s)))
      case Judged(result) => Finalized(result)
  }

  /** What the gate answers for a snapshot. */
  ghost function Evaluation(normalize: Normalizer, s: EvaluationSnapshot, config: RuleConfig): Outcome {
    CanonicalEvaluation(normalize, CanonicalSnapshot(s), config)
  }

  /** The fact rules F01 to F10 in order, each appending to the lists of those before it. */
  method ExamineFacts(s: EvaluationSnapshot, config: RuleConfig, priorId: Option<string>)
    returns (stop: Option<ErrorCode>, warnings: seq<string>, f: Findings)
    ensures stop == FactStop(s, config)
    ensures stop.None? ==> f == FactFindings(s, config, priorId) && warnings == Warnings(config, Approved(s, config))
  {
    hide BindFindings, ScopeFindings, ExclusionFindings, RetrievalFindings, IdentityFindings, ApprovalFindings, ConflictFindings,
      EvidenceFindings, ConsequenceFindings, CapabilityFindings, DependencyFindings, Sort, Filter, Gather, Applicable, Reports,
      Requirements, RequiredCapabilities, DuplicateCapability, ReportBound;
    var p := s.proposal;
    warnings := [];
    f := BindFindings(s, config, priorId).Then(ScopeFindings(s));
    var exclusions := ExamineExclusions(p, SortedExclusions(s));
    f := f.Then(exclusions);
    var near, retrieval := ExamineRetrieval(p, config, SortedPrecedents(s));
    var qualifying, identity := ExamineIdentity(p, near);
    var approved := Filter(IsApproved, qualifying);
    f := f.Then(retrieval).Then(identity).Then(ApprovalFindings(p, approved)).Then(ConflictFindings(p, qualifying));
    var evidence := ExamineEvidence(p, Sort(RefKey, p.evidenceRefs), Requirements(s));
    f := f.Then(evidence);
    var consequences := NOTHING;
    if approved != [] {
      var bound := CheckReports(config, Reports(approved));
      if !bound { return Some(InvalidConsequence), [], f; }
      warnings, consequences := ExamineConsequences(p, config, ConsequenceRequired(config, AllowRules(s)), approved);
    }
    NoReports();
    assert consequences == ConsequenceFindings(p, config, ConsequenceRequired(config, AllowRules(s)), approved) by {
      if approved == [] { NoConsequences(p, config, ConsequenceRequired(config, AllowRules(s))); }
    }
    f := f.Then(consequences);
    var duplicate, byId := IndexCapabilities(s.capabilities);
    if duplicate { return Some(DuplicatedCapability), [], f; }
    var capabilities := ExamineCapabilities(p, s.capabilities, byId, RequiredCapabilities(AllowRules(s)));
    var dependencies := ExamineDependencies(SortedDependencies(s));
    stop, f := None, f.Then(capabilities).Then(dependencies);
  }

  lemma NoReports()
    ensures Reports([]) == []
    ensures forall config :: Warnings(config, []) == []
  {}

  lemma NoConsequences(p: Proposal, config: RuleConfig, required: bool)
    ensures ConsequenceFindings(p, config, required, []) == NOTHING
  {}

  method EvaluateProposal(normalize: Normalizer, snapshot: EvaluationSnapshot, config: RuleConfig) returns (outcome: Outcome)
    ensures outcome == Evaluation(normalize, snapshot, config)
  {
    hide CanonicalSnapshot, InputStop, FactStop, FactFindings, Reduce, FullTrace, BlockedOf, Warnings, AggregateFindings;
    var s := CanonicalSnapshot(snapshot);
    var invalid := ValidateInput(normalize, s, config);
    if invalid.Some? { return Blocked(BlockedOf(s, config, invalid.value, None)); }
    var priorId := PriorId(s);
    var stop, warnings, facts := ExamineFacts(s, config, priorId);
    if stop.Some? { return Blocked(BlockedOf(s, config, stop.value, priorId)); }
    var f := facts.Then(AggregateFindings(s.proposal, facts));
    var reduction := Reduce(s, config, f);
    if reduction.None? { return Blocked(BlockedOf(s, config, ReducerNonTotal, priorId)); }
    var red := reduction.value;
    if |f.steps| + 2 > TRACE_LIMIT { return Blocked(BlockedOf(s, config, TraceLimitExceeded, priorId)); }
    if s.evaluationId == "" || (s.prior.Some? && !Readable(s.prior.value.result.trace)) {
      return Blocked(BlockedOf(s, config, InternalEvaluatorError, priorId));
    }
    var trace := FullTrace(s, f, red);
    var changed := ChangedFactIds(s.prior, trace, red.gaps);
    var result := CheckResult(
      red.verdict, red.risk, trace, red.gaps, SortedDependencies(s), Each(ProposalId, SortedPrecedents(s)),
      Sort(TextKey, warnings), trace[|trace| - 1].stepId, s.evaluationId, s.profileVersion,
      priorId, changed, config.evaluatorVersion, config.digest, s.snapshotDigest, s.policy.policyDigest, Zero);
    outcome := Finalized(result.(traceDigest := ResultDigest(result)));
  }
}
