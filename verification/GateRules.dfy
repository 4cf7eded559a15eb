/** What each rule of the gate finds in a canonical snapshot, rule by rule. */
module GateRules {
  import opened Canonical
  import opened Json
  import opened Models
  import opened Ordering
  import opened Sequences
  import opened Traces

  /** A trace step before it has an identity. */
  datatype Descriptor = Descriptor(
    rule: RuleName, family: Family, pole: Pole, subjectRef: string, objectRefs: seq<string>,
    fact: Fact, evidenceRefs: seq<EvidenceRef>)

  /** What the rules add to the trace, to the three lists of triggered predicates and to the
      candidate gaps. */
  datatype Findings = Findings(
    steps: seq<Descriptor>, r1: seq<Predicate>, r2: seq<Predicate>, r3: seq<Predicate>, gaps: seq<EvidenceGap>)
  {
    function Then(next: Findings): Findings {
      Findings(steps + next.steps, r1 + next.r1, r2 + next.r2, r3 + next.r3, gaps + next.gaps)
    }
  }

  /** At most one step, under the given rule and with a pole of its family. */
  ghost predicate AtMostOne(ds: seq<Descriptor>, rule: RuleName) {
    |ds| <= 1 && forall i | 0 <= i < |ds| :: ds[i].rule == rule && AllowedPole(ds[i].family, ds[i].pole)
  }

  const NOTHING := Findings([], [], [], [], [])

  function Step(rule: RuleName, family: Family, pole: Pole, subject: string, objects: seq<string>, fact: Fact): Descriptor {
    Descriptor(rule, family, pole, subject, objects, fact, [])
  }

  // ----- the questions a gap asks

  function PolicyGap(id: string): (g: EvidenceGap)
    ensures g.resolutionRule == F02 && g.subjectRef == id
  {
    EvidenceGap(Whence, id, "Whence comes the policy authority for this action?", "an applicable digest-bound policy rule", F02)
  }

  function TargetGap(id: string): (g: EvidenceGap)
    ensures g.resolutionRule == F02 && g.subjectRef == id
  {
    EvidenceGap(Where, id, "Where is this target inside the allowed boundary?", "an exact or wildcard target scope", F02)
  }

  function SimilarityGap(id: string): (g: EvidenceGap)
    ensures g.resolutionRule == F04 && g.subjectRef == id
  {
    EvidenceGap(Which, id, "Which exact similarity can be recomputed?", "a fixed-scale cosine similarity for this candidate", F04)
  }

  function ApprovalGap(id: string): (g: EvidenceGap)
    ensures g.resolutionRule == F05 && g.subjectRef == id
  {
    EvidenceGap(Which, id, "Which exact approved action-type-and-target precedent qualifies?",
                "one NEAR and exact SAME approved precedent with required consequence", F05)
  }

  function ConflictGap(id: string): (g: EvidenceGap)
    ensures g.resolutionRule == F06 && g.subjectRef == id
  {
    EvidenceGap(Which, id, "Which conflicting precedent decisions should govern?",
                "human reconciliation of qualifying precedent decisions", F06)
  }

  function RequirementQuestion(id: string): string { "What resolves evidence requirement " + id + "?" }

  function RequirementGap(q: EvidenceRequirement): (g: EvidenceGap)
    ensures g.question == RequirementQuestion(q.requirementId) && g.resolutionRule == q.resolutionRule
  {
    EvidenceGap(q.axis, q.subjectRef, RequirementQuestion(q.requirementId), "valid evidence of kind " + q.kind, q.resolutionRule)
  }

  function DivergenceGap(id: string): (g: EvidenceGap)
    ensures g.resolutionRule == F08 && g.subjectRef == id
  {
    EvidenceGap(What, id, "What accepted outcome or mitigation resolves the observed divergence?",
                "reviewed actual outcome or a new bounded proposal", F08)
  }

  function ObservationGap(id: string): (g: EvidenceGap)
    ensures g.resolutionRule == F08 && g.subjectRef == id
  {
    EvidenceGap(When, id, "When was the approved effect observed?", "a fresh OBSERVED receipt-bound consequence report", F08)
  }

  function OutcomeGap(id: string): (g: EvidenceGap)
    ensures g.resolutionRule == F08 && g.subjectRef == id
  {
    EvidenceGap(What, id, "What actual outcome followed the approved effect?",
                "canonical actual outcome bound to that OBSERVED receipt", F08)
  }

  function CapabilityIdentityGap(id: string): (g: EvidenceGap)
    ensures g.resolutionRule == F09 && g.subjectRef == id
  {
    EvidenceGap(Which, id, "Which exact required capability is available?", "a bound capability identity and snapshot", F09)
  }

  function CapabilityProofGap(id: string): (g: EvidenceGap)
    ensures g.resolutionRule == F09 && g.subjectRef == id
  {
    EvidenceGap(How, id, "How was the required capability validated?", "fresh capability proof", F09)
  }

  function CapabilityStateGap(id: string): (g: EvidenceGap)
    ensures g.resolutionRule == F09 && g.subjectRef == id
  {
    EvidenceGap(How, id, "How can this capability be resolved?", "fresh bound capability proof", F09)
  }

  function DependencyStateGap(id: string): (g: EvidenceGap)
    ensures g.resolutionRule == F10 && g.subjectRef == id
  {
    EvidenceGap(Which, id, "Which exact dependency state applies?", "a fresh dependency fact", F10)
  }

  function DependencyProofGap(id: string): (g: EvidenceGap)
    ensures g.resolutionRule == F10 && g.subjectRef == id
  {
    EvidenceGap(How, id, "How can the dependency predicate be validated?", "bound dependency evidence", F10)
  }

  // ----- F01: what is being judged

  function BindFindings(s: EvaluationSnapshot, config: RuleConfig, priorId: Option<string>): (f: Findings)
    ensures f.r1 == [] && f.r2 == [] && f.r3 == [] && f.gaps == []
    ensures AtMostOne(f.steps, F01)
  {
    var p := s.proposal;
    NOTHING.(steps := [Step(F01, This, THIS, p.proposalId, [],
      Binding(p.proposalId, p.proposalDigest, p.actionDigest, s.snapshotId, s.snapshotDigest, s.profileVersion, priorId,
              if s.prior.Some? then Some(s.prior.value.result.traceDigest) else None,
              s.policy.policyDigest, config.digest, s.capturedAt))])
  }

  // ----- F02: the policy scope

  function Applies(p: Proposal): PolicyRule -> bool {
    (r: PolicyRule) => r.actionTypeKey == p.actionTypeKey && (r.targetKey == None || r.targetKey == Some(p.targetKey))
  }

  function IsDeny(r: PolicyRule): bool { r.effect == Deny }
  function IsAllow(r: PolicyRule): bool { r.effect == Allow }
  function RuleId(r: PolicyRule): string { r.ruleId }

  function Applicable(s: EvaluationSnapshot): seq<PolicyRule> {
    Sort(RuleKey, Filter(Applies(s.proposal), s.policy.rules))
  }

  function DenyRules(s: EvaluationSnapshot): seq<PolicyRule> { Filter(IsDeny, Applicable(s)) }
  function AllowRules(s: EvaluationSnapshot): seq<PolicyRule> { Filter(IsAllow, Applicable(s)) }

  function ScopeFindings(s: EvaluationSnapshot): (f: Findings)
    ensures f.r3 == []
    ensures AtMostOne(f.steps, F02)
  {
    var ids := Each(RuleId, Applicable(s));
    if DenyRules(s) != [] then
      NOTHING.(steps := [Step(F02, InsideOutside, OUTSIDE, s.proposal.proposalId, ids, Scope(AllowRules(s) != [], true, ids))],
               r1 := [HardPolicyOutside])
    else if AllowRules(s) != [] then
      NOTHING.(steps := [Step(F02, InsideOutside, INSIDE, s.proposal.proposalId, ids, Scope(true, false, ids))])
    else
      NOTHING.(r2 := [PolicySourceUnresolved, TargetScopeUnresolved], gaps := [PolicyGap(s.proposal.proposalId), TargetGap(s.proposal.proposalId)])
  }

  // ----- F03: exclusions

  function Excludes(p: Proposal): ExclusionRef -> bool {
    (e: ExclusionRef) => e.actionTypeKey == p.actionTypeKey && e.targetKey == p.targetKey
  }

  function RowOfExclusion(p: Proposal): ExclusionRef -> ExclusionRow {
    (e: ExclusionRef) => ExclusionRow(
      e.exclusionId, Excludes(p)(e), e.exclusionDigest, e.actionType, e.actionTypeKey, e.target, e.targetKey,
      e.sourceProposalId, e.sourceEvaluationId, e.sourceTraceDigest,
      e.sourceDecisionId, e.sourceDecisionValue, e.sourceDecisionDigest)
  }

  function ExclusionId(e: ExclusionRef): string { e.exclusionId }

  function SortedExclusions(s: EvaluationSnapshot): seq<ExclusionRef> { Sort(ExclusionKey, s.exclusions) }

  predicate SomeExcludes(p: Proposal, es: seq<ExclusionRef>) { exists e | e in es :: Excludes(p)(e) }

  function ExclusionFindings(p: Proposal, es: seq<ExclusionRef>): (f: Findings)
    ensures f.r2 == [] && f.r3 == [] && f.gaps == []
    ensures AtMostOne(f.steps, F03)
  {
    if es == [] then NOTHING
    else
      var same := SomeExcludes(p, es);
      NOTHING.(steps := [Step(F03, SameNotSame, if same then SAME else NOT_SAME, p.proposalId, Each(ExclusionId, es),
                              Exclusions(same, Each(RowOfExclusion(p), es)))],
               r1 := if same then [ActiveExclusionSame] else [])
  }

  // ----- F04: retrieval of precedents

  function SortedPrecedents(s: EvaluationSnapshot): seq<PrecedentRef> { Sort(PrecedentKey, s.precedents) }

  function NearnessOf(config: RuleConfig, x: PrecedentRef): Nearness {
    if x.similarity.None? then Unknown else if x.similarity.value >= config.similarityThreshold then Near else Far
  }

  function IsNear(config: RuleConfig): PrecedentRef -> bool { (x: PrecedentRef) => NearnessOf(config, x) == Near }
  function HasNoSimilarity(x: PrecedentRef): bool { x.similarity.None? }
  function ProposalId(x: PrecedentRef): string { x.proposalId }
  function EvaluationId(x: PrecedentRef): string { x.evaluationId }

  function RowOfCandidate(config: RuleConfig): PrecedentRef -> CandidateRow {
    (x: PrecedentRef) => CandidateRow(x.proposalId, x.evaluationId, x.similarity, NearnessOf(config, x), x.similarityErrorCode)
  }

  function SimilarityPredicates(x: PrecedentRef): seq<Predicate> {
    if x.similarity.None? then [SimilarityUnresolved(x.proposalId)] else []
  }

  function SimilarityGaps(x: PrecedentRef): seq<EvidenceGap> {
    if x.similarity.None? then [SimilarityGap(x.proposalId)] else []
  }

  predicate SomeUnresolved(xs: seq<PrecedentRef>) { exists x | x in xs :: x.similarity.None? }
  predicate AllUnresolved(xs: seq<PrecedentRef>) { forall x | x in xs :: x.similarity.None? }

  function RetrievalStep(p: Proposal, config: RuleConfig, xs: seq<PrecedentRef>): (d: Descriptor)
    ensures d.rule == F04 && AllowedPole(d.family, d.pole)
  {
    var unresolved := |Filter(HasNoSimilarity, xs)|;
    Step(F04, NearFar, if Filter(IsNear(config), xs) != [] then NEAR else FAR, p.proposalId, Each(ProposalId, xs),
         Retrieval(|xs|, |Filter(HasSimilarity, xs)|, unresolved, Filter(IsNear(config), xs) != [],
                   SomeUnresolved(xs), xs != [] && AllUnresolved(xs),
                   Each(RowOfCandidate(config), xs)))
  }

  function HasSimilarity(x: PrecedentRef): bool { x.similarity.Some? }

  function RetrievalFindings(p: Proposal, config: RuleConfig, xs: seq<PrecedentRef>): (f: Findings)
    ensures f.r1 == [] && f.r3 == []
    ensures AtMostOne(f.steps, F04)
  {
    Findings([RetrievalStep(p, config, xs)], [], Gather(SimilarityPredicates, xs), [], Gather(SimilarityGaps, xs))
  }

  // ----- F05: identity with the near precedents

  function IsSame(p: Proposal): PrecedentRef -> bool {
    (x: PrecedentRef) => x.actionTypeKey == p.actionTypeKey && x.targetKey == p.targetKey
  }

  function IsApproved(x: PrecedentRef): bool { x.decision == Some(Approve) }

  function RowOfIdentity(p: Proposal): PrecedentRef -> IdentityRow {
    (x: PrecedentRef) => IdentityRow(x.proposalId, x.evaluationId, IsSame(p)(x))
  }

  function NearOnes(s: EvaluationSnapshot, config: RuleConfig): seq<PrecedentRef> {
    Filter(IsNear(config), SortedPrecedents(s))
  }

  function Qualifying(s: EvaluationSnapshot, config: RuleConfig): seq<PrecedentRef> {
    Filter(IsSame(s.proposal), NearOnes(s, config))
  }

  function Approved(s: EvaluationSnapshot, config: RuleConfig): seq<PrecedentRef> {
    Filter(IsApproved, Qualifying(s, config))
  }

  function IdentityFindings(p: Proposal, near: seq<PrecedentRef>): (f: Findings)
    ensures f.r1 == [] && f.r2 == [] && f.r3 == [] && f.gaps == []
    ensures AtMostOne(f.steps, F05)
  {
    if near == [] then NOTHING
    else
      var qualifying := Filter(IsSame(p), near);
      NOTHING.(steps := [Step(F05, SameNotSame, if qualifying != [] then SAME else NOT_SAME, p.proposalId, Each(ProposalId, near),
                              Identity(qualifying != [], Each(RowOfIdentity(p), near)))])
  }

  function ApprovalFindings(p: Proposal, approved: seq<PrecedentRef>): (f: Findings)
    ensures f.steps == [] && f.r1 == [] && f.r3 == []
  {
    if approved != [] then NOTHING
    else
      NOTHING.(r2 := [NoQualifyingApprove], gaps := [ApprovalGap(p.proposalId)])
  }

  // ----- F06: conflicting decisions

  function DecisionOf(x: PrecedentRef): Option<DecisionValue> { x.decision }

  function RowOfDecision(x: PrecedentRef): DecisionRow {
    DecisionRow(x.proposalId, x.evaluationId, x.decision, x.decisionId)
  }

  predicate Conflicting(qualifying: seq<PrecedentRef>) {
    var decisions := Each(DecisionOf, qualifying);
    Some(Approve) in decisions && (Some(Reject) in decisions || Some(Modify) in decisions)
  }

  function ConflictFindings(p: Proposal, qualifying: seq<PrecedentRef>): (f: Findings)
    ensures f.r1 == [] && f.r3 == []
    ensures AtMostOne(f.steps, F06)
  {
    if qualifying == [] then NOTHING
    else
      var decisions := Each(DecisionOf, qualifying);
      var conflict := Conflicting(qualifying);
      NOTHING.(
        steps := [Step(F06, TogetherAlone, if conflict then ALONE else TOGETHER, p.proposalId, Each(EvaluationId, qualifying),
                       Conflict(Some(Approve) in decisions, Some(Reject) in decisions, Some(Modify) in decisions,
                                None in decisions, conflict, Each(RowOfDecision, qualifying)))],
        r2 := if conflict then [PrecedentConflict] else [],
        gaps := if conflict then [ConflictGap(p.proposalId)] else [])
  }

  // ----- F07: required evidence

  predicate HexChar(c: char) { '0' <= c <= '9' || 'a' <= c <= 'f' }

  predicate EvidenceValid(e: EvidenceRef) {
    e.refId != "" && e.kind != "" && |e.digest| == 64 && forall i | 0 <= i < 64 :: HexChar(e.digest[i])
  }

  function EvidenceOf(r: PolicyRule): seq<EvidenceRequirement> { r.requiredEvidence }
  function RequirementId(q: EvidenceRequirement): string { q.requirementId }

  function Requirements(s: EvaluationSnapshot): seq<EvidenceRequirement> {
    Sort(RequirementKey, Gather(EvidenceOf, AllowRules(s)))
  }

  /** The reference a kind stands for: the last one of that kind. */
  function Bound(refs: seq<EvidenceRef>, kind: string): Option<EvidenceRef> {
    if refs == [] then None
    else if refs[|refs| - 1].kind == kind then Some(refs[|refs| - 1])
    else Bound(refs[..|refs| - 1], kind)
  }

  predicate Satisfied(refs: seq<EvidenceRef>, q: EvidenceRequirement) {
    Bound(refs, q.kind).Some? && EvidenceValid(Bound(refs, q.kind).value)
  }

  function BoundRef(refs: seq<EvidenceRef>): EvidenceRequirement -> seq<EvidenceRef> {
    (q: EvidenceRequirement) => match Bound(refs, q.kind) case Some(e) => [e] case None => []
  }

  function RowOfRequirement(refs: seq<EvidenceRef>): EvidenceRequirement -> RequirementRow {
    (q: EvidenceRequirement) => RequirementRow(
      q.requirementId, q.kind, Satisfied(refs, q),
      match Bound(refs, q.kind) case Some(e) => Some(e.refId) case None => None)
  }

  function RequirementPredicates(refs: seq<EvidenceRef>): EvidenceRequirement -> seq<Predicate> {
    (q: EvidenceRequirement) => if Satisfied(refs, q) then [] else [EvidenceMissing(q.requirementId)]
  }

  function RequirementGaps(refs: seq<EvidenceRef>): EvidenceRequirement -> seq<EvidenceGap> {
    (q: EvidenceRequirement) => if Satisfied(refs, q) then [] else [RequirementGap(q)]
  }

  predicate AllSatisfied(refs: seq<EvidenceRef>, qs: seq<EvidenceRequirement>) { forall q | q in qs :: Satisfied(refs, q) }

  function EvidenceFindings(p: Proposal, refs: seq<EvidenceRef>, qs: seq<EvidenceRequirement>): (f: Findings)
    ensures f.r1 == [] && f.r3 == []
    ensures AtMostOne(f.steps, F07)
  {
    NOTHING.(
      steps := [Descriptor(F07, TogetherAlone, if AllSatisfied(refs, qs) then TOGETHER else ALONE, p.proposalId,
                           Each(RequirementId, qs), Evidence(AllSatisfied(refs, qs), Each(RowOfRequirement(refs), qs)),
                           Gather(BoundRef(refs), qs))],
      r2 := Gather(RequirementPredicates(refs), qs),
      gaps := Gather(RequirementGaps(refs), qs))
  }

  // ----- F08: observed consequences

  type Report = (PrecedentRef, ConsequenceRef)

  function ReportOf(x: PrecedentRef): ConsequenceRef -> Report { (c: ConsequenceRef) => (x, c) }
  function ReportsOf(x: PrecedentRef): seq<Report> { Each(ReportOf(x), x.consequenceRefs) }
  function ReportKey(r: Report): Key { ConsequenceKey(r.1) }

  function Reports(approved: seq<PrecedentRef>): seq<Report> { Sort(ReportKey, Gather(ReportsOf, approved)) }

  predicate ReportBound(config: RuleConfig, r: Report) {
    r.1.receiptStatus == Observed && r.1.divergenceThreshold == config.divergenceThreshold
  }

  predicate IsMore(config: RuleConfig, r: Report) { r.1.divergence >= config.divergenceThreshold }

  function HasNoReport(x: PrecedentRef): bool { x.consequenceRefs == [] }

  function ConsequenceRequired(config: RuleConfig, allow: seq<PolicyRule>): bool {
    config.requireConsequenceForYes && exists r | r in allow :: r.requireConsequence
  }

  function RowOfReport(config: RuleConfig): Report -> ReportRow {
    (r: Report) => ReportRow(r.0.proposalId, r.1.receiptId, r.1.consequenceId, r.1.divergence, IsMore(config, r))
  }

  function WarningsOf(config: RuleConfig): Report -> seq<string> {
    (r: Report) => if IsMore(config, r) then [r.1.consequenceId] else []
  }

  function DivergencePredicates(config: RuleConfig): Report -> seq<Predicate> {
    (r: Report) => if IsMore(config, r) then [HighDivergence(r.1.consequenceId)] else []
  }

  function DivergenceGaps(config: RuleConfig): Report -> seq<EvidenceGap> {
    (r: Report) => if IsMore(config, r) then [DivergenceGap(r.1.consequenceId)] else []
  }

  function MissingPredicates(id: string): seq<Predicate> { [MissingConsequence(id)] }
  function MissingGaps(id: string): seq<EvidenceGap> { [ObservationGap(id), OutcomeGap(id)] }

  function MissingIds(approved: seq<PrecedentRef>): seq<string> { Each(ProposalId, Filter(HasNoReport, approved)) }

  predicate SomeMore(config: RuleConfig, reports: seq<Report>) { exists r | r in reports :: IsMore(config, r) }

  function ConsequenceStep(p: Proposal, config: RuleConfig, required: bool, approved: seq<PrecedentRef>): (d: Descriptor)
    ensures d.rule == F08 && AllowedPole(d.family, d.pole)
  {
    var reports, missing := Reports(approved), MissingIds(approved);
    var more := SomeMore(config, reports);
    Step(F08, MoreLess, if more then MORE else LESS, p.proposalId, Each(ProposalId, approved),
         Consequences(Each(ProposalId, approved), missing, |reports|, more, required && missing != [],
                      Each(RowOfReport(config), reports)))
  }

  function ConsequenceFindings(p: Proposal, config: RuleConfig, required: bool, approved: seq<PrecedentRef>): (f: Findings)
    ensures f.r1 == [] && f.r3 == []
    ensures AtMostOne(f.steps, F08)
  {
    if approved == [] then NOTHING
    else
      var reports, missing := Reports(approved), MissingIds(approved);
      Findings(
        [ConsequenceStep(p, config, required, approved)], [],
        Gather(DivergencePredicates(config), reports) + (if required then Gather(MissingPredicates, missing) else []), [],
        Gather(DivergenceGaps(config), reports) + (if required then Gather(MissingGaps, missing) else []))
  }

  function Warnings(config: RuleConfig, approved: seq<PrecedentRef>): seq<string> {
    Gather(WarningsOf(config), Reports(approved))
  }

  // ----- F09: required capabilities

  function RequiredCapabilities(allow: seq<PolicyRule>): seq<string> {
    Listing(set r, id | r in allow && id in r.requiredCapabilityIds :: id)
  }

  function FactOf(facts: seq<CapabilityFact>, id: string): Option<CapabilityFact> {
    if facts == [] then None
    else if facts[|facts| - 1].capabilityId == id then Some(facts[|facts| - 1])
    else FactOf(facts[..|facts| - 1], id)
  }

  predicate DuplicateCapability(facts: seq<CapabilityFact>) {
    exists i, j | 0 <= i < j < |facts| :: facts[i].capabilityId == facts[j].capabilityId
  }

  function StateOf(facts: seq<CapabilityFact>, id: string): Option<DependencyState> {
    match FactOf(facts, id) case Some(c) => Some(c.state) case None => None
  }

  function RowOfCapability(facts: seq<CapabilityFact>): string -> CapabilityRow {
    (id: string) => CapabilityRow(id, StateOf(facts, id))
  }

  function CapabilityEvidence(facts: seq<CapabilityFact>): string -> seq<EvidenceRef> {
    (id: string) => match FactOf(facts, id) case Some(c) => c.evidenceRefs case None => []
  }

  function FalseCapability(facts: seq<CapabilityFact>): string -> seq<Predicate> {
    (id: string) => if StateOf(facts, id) == Some(StateFalse) then [CapabilityFalse(id)] else []
  }

  function OpenCapability(facts: seq<CapabilityFact>): string -> seq<Predicate> {
    (id: string) =>
      if StateOf(facts, id) == None then [CapabilityMissing(id)]
      else if StateOf(facts, id) == Some(StateUnresolved) then [CapabilityUnresolved(id)]
      else []
  }

  function CapabilityGaps(facts: seq<CapabilityFact>): string -> seq<EvidenceGap> {
    (id: string) =>
      if StateOf(facts, id) == None then [CapabilityIdentityGap(id), CapabilityProofGap(id)]
      else if StateOf(facts, id) == Some(StateUnresolved) then [CapabilityStateGap(id)]
      else []
  }

  predicate SomeInState(facts: seq<CapabilityFact>, ids: seq<string>, state: Option<DependencyState>) {
    exists id | id in ids :: StateOf(facts, id) == state
  }

  function CapabilityFindings(p: Proposal, facts: seq<CapabilityFact>, ids: seq<string>): (f: Findings)
    ensures f.r3 == []
    ensures AtMostOne(f.steps, F09)
  {
    if ids == [] then NOTHING
    else
      var someFalse := SomeInState(facts, ids, Some(StateFalse));
      var someUnresolved := SomeInState(facts, ids, Some(StateUnresolved));
      var someMissing := SomeInState(facts, ids, None);
      NOTHING.(
        steps := [Descriptor(F09, CanCannot, if someFalse || someUnresolved || someMissing then CANNOT else CAN, p.proposalId, ids,
                             Capabilities(someFalse, someUnresolved, someMissing, Each(RowOfCapability(facts), ids)),
                             Gather(CapabilityEvidence(facts), ids))],
        r1 := Gather(FalseCapability(facts), ids),
        r2 := Gather(OpenCapability(facts), ids),
        gaps := Gather(CapabilityGaps(facts), ids))
  }

  // ----- F10: dependency formulas

  function SortedDependencies(s: EvaluationSnapshot): seq<DependencyRef> { Sort(DependencyKey, s.dependencies) }

  /** The formula fact carries the fields of the dependency that the trace records. */
  function Recorded(d: DependencyRef): DependencyRef { d.(subjectRef := "", evidenceRefs := []) }

  function FormulaStep(d: DependencyRef, thenPart: bool): Descriptor {
    Descriptor(F10, IfThen, if thenPart then THEN else IF, d.dependencyId, [],
               Formula(Recorded(d), d.state == StateTrue, thenPart), d.evidenceRefs)
  }

  function FormulaSteps(d: DependencyRef): seq<Descriptor> { [FormulaStep(d, false), FormulaStep(d, true)] }

  predicate Complete(d: DependencyRef) { d.necessaryForYes && d.sufficientIfTrue }

  function FalseDependency(d: DependencyRef): seq<Predicate> {
    if d.state == StateFalse then [DependencyFalse(d.dependencyId)] else []
  }

  function OpenDependency(d: DependencyRef): seq<Predicate> {
    if d.state == StateUnresolved && !Complete(d) then [IncompleteFormula(d.dependencyId)] else []
  }

  function ConditionalDependency(d: DependencyRef): seq<Predicate> {
    if d.state == StateUnresolved && Complete(d) then [CompleteFormula(d.dependencyId)] else []
  }

  function DependencyGaps(d: DependencyRef): seq<EvidenceGap> {
    if d.state == StateUnresolved && !Complete(d) then [DependencyStateGap(d.dependencyId), DependencyProofGap(d.dependencyId)] else []
  }

  function DependencyFindings(ds: seq<DependencyRef>): Findings {
    Findings(Gather(FormulaSteps, ds), Gather(FalseDependency, ds), Gather(OpenDependency, ds),
             Gather(ConditionalDependency, ds), Gather(DependencyGaps, ds))
  }

  // ----- F11: the aggregate

  function Triggered(f: Findings): set<Predicate> { set q | q in f.r1 + f.r2 + f.r3 }

  function AggregateFindings(p: Proposal, f: Findings): Findings {
    NOTHING.(steps := [Step(F11, EverySome, if Triggered(f) != {} then SOME else EVERY, p.proposalId, [], Aggregate(Triggered(f)))])
  }

  // ----- all fact rules

  /** The findings of F01 to F10 in trace order. */
  function FactFindings(s: EvaluationSnapshot, config: RuleConfig, priorId: Option<string>): Findings {
    var p := s.proposal;
    BindFindings(s, config, priorId)
      .Then(ScopeFindings(s))
      .Then(ExclusionFindings(p, SortedExclusions(s)))
      .Then(RetrievalFindings(p, config, SortedPrecedents(s)))
      .Then(IdentityFindings(p, NearOnes(s, config)))
      .Then(ApprovalFindings(p, Approved(s, config)))
      .Then(ConflictFindings(p, Qualifying(s, config)))
      .Then(EvidenceFindings(p, Sort(RefKey, p.evidenceRefs), Requirements(s)))
      .Then(ConsequenceFindings(p, config, ConsequenceRequired(config, AllowRules(s)), Approved(s, config)))
      .Then(CapabilityFindings(p, s.capabilities, RequiredCapabilities(AllowRules(s))))
      .Then(DependencyFindings(SortedDependencies(s)))
  }
}
