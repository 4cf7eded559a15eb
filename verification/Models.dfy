/** The frozen records of the governance gate and of its ledger. A digest is modelled by the record it was
    computed from, so equal digests mean equal records. */
module Models {
  import opened Json
  import Divergence

  datatype DependencyState = StateTrue | StateFalse | StateUnresolved
  datatype DecisionValue = Approve | Reject | Modify
  datatype PolicyEffect = Allow | Deny
  datatype ExecutionStatus = Observed | Error
  datatype Verdict = NO | YES | MAYBE | IFF
  datatype Risk = LOW | MEDIUM | HIGH
  datatype Witness = What | Where | Which | When | ForWhat | How | Whence

  datatype Family =
    | This | SameNotSame | IfThen | Because | InsideOutside
    | NearFar | CanCannot | TogetherAlone | MoreLess | EverySome

  datatype Pole =
    | THIS | SAME | NOT_SAME | IF | THEN | BECAUSE | INSIDE | OUTSIDE | NEAR | FAR
    | CAN | CANNOT | TOGETHER | ALONE | MORE | LESS | EVERY | SOME

  /** The names of the fact and reducer rules; Other stands for any other text. */
  datatype RuleName =
    | F01 | F02 | F03 | F04 | F05 | F06 | F07 | F08 | F09 | F10 | F11 | F12
    | R1 | R2 | R3 | R4
    | Other(text: string)
  {
    function Text(): string {
      match this
      case F01 => "F01_THIS_BIND"
      case F02 => "F02_SCOPE_BOUNDARY"
      case F03 => "F03_EXCLUSION_IDENTITY"
      case F04 => "F04_PRECEDENT_RETRIEVAL"
      case F05 => "F05_PRECEDENT_IDENTITY"
      case F06 => "F06_PRECEDENT_CONFLICT"
      case F07 => "F07_EVIDENCE_COMPLETENESS"
      case F08 => "F08_DIVERGENCE_BOUNDARY"
      case F09 => "F09_CAPABILITY_SNAPSHOT"
      case F10 => "F10_DEPENDENCY_FORMULA"
      case F11 => "F11_CONDITION_AGGREGATE"
      case F12 => "F12_FINAL_BECAUSE"
      case R1 => "R1_NO"
      case R2 => "R2_MAYBE"
      case R3 => "R3_IFF"
      case R4 => "R4_YES"
      case Other(text) => text
    }

    predicate IsReducer() { R1? || R2? || R3? || R4? }
  }

  datatype Digest =
    | Zero
    | Given(text: string)
    | OfConfig(config: RuleConfig)
    | OfAction(actionType: string, actionTypeKey: string, target: string, targetKey: string, parametersJson: string)
    | OfProposal(proposal: Proposal)
    | OfPolicy(version: string, rules: seq<PolicyRule>)
    | OfSnapshot(snapshot: EvaluationSnapshot)
    | OfResult(result: CheckResult)
    | OfBlocked(blocked: BlockedResult)
    | OfDecision(decision: DecisionRecord)
    | OfExclusion(exclusion: ExclusionRef)
    | OfEffect(effect: Effect)
    | OfOutcome(status: ExecutionStatus, effectId: Option<string>, effectKey: string, before: Digest,
                after: Option<Digest>, effectVersion: Option<nat>)
    | OfAttempt(attempt: Attempt)
    | OfReceipt(receipt: Receipt)
    | OfJson(document: Json)
    | OfReport(report: ConsequenceReport)

  datatype RuleConfig = RuleConfig(
    digest: Digest,
    evaluatorVersion: string,
    similarityThreshold: real,
    divergenceThreshold: real,
    precedentTopK: nat,
    requireConsequenceForYes: bool,
    similarityEqualQualifies: bool,
    divergenceEqualIsHigh: bool,
    normalizationVersion: string)

  /** Why an evaluation was blocked. */
  datatype ErrorCode =
    | InvalidRuleConfig | InvalidSnapshot | InvalidPriorTrace | PriorBindingMismatch
    | EmptyNormalizedKey | ActionKeyMismatch | TargetKeyMismatch | ClassKeyMismatch
    | ActionDigestMismatch | ProposalDigestMismatch | PolicyDigestMismatch | InvalidPolicy | InvalidProfile
    | PrecedentLimitExceeded | InvalidExclusion | DependencySnapshotMismatch
    | InvalidConsequence | DuplicatedCapability
    | ReducerNonTotal | TraceLimitExceeded | InternalEvaluatorError

  datatype EvidenceRef = EvidenceRef(refId: string, kind: string, digest: string)

  /** A gap is identified by its signature. */
  datatype EvidenceGap = EvidenceGap(
    axis: Witness, subjectRef: string, question: string, needed: string, resolutionRule: RuleName)

  datatype EvidenceRequirement = EvidenceRequirement(
    requirementId: string, kind: string, axis: Witness, subjectRef: string, resolutionRule: RuleName)

  datatype DependencyRef = DependencyRef(
    dependencyId: string, subjectRef: string, predicateText: string, expectedJson: string,
    observedJson: Option<string>, state: DependencyState, snapshotDigest: Digest,
    evidenceRefs: seq<EvidenceRef>, necessaryForYes: bool, sufficientIfTrue: bool)

  datatype PolicyRule = PolicyRule(
    ruleId: string, actionTypeKey: string, targetKey: Option<string>, effect: PolicyEffect, because: string,
    requiredEvidence: seq<EvidenceRequirement>, requiredCapabilityIds: seq<string>, requireConsequence: bool)

  datatype PolicyInput = PolicyInput(policyVersion: string, policyDigest: Digest, rules: seq<PolicyRule>)

  datatype ExclusionRef = ExclusionRef(
    exclusionId: string, actionType: string, actionTypeKey: string, target: string, targetKey: string, reason: string,
    sourceProposalId: string, sourceEvaluationId: string, sourceTraceDigest: Digest,
    sourceDecisionId: string, sourceDecisionValue: DecisionValue, sourceDecisionDigest: Digest,
    exclusionDigest: Digest, idempotencyKey: string)

  datatype ConsequenceRef = ConsequenceRef(
    consequenceId: string, receiptId: string, receiptStatus: ExecutionStatus, receiptDigest: Digest,
    divergence: real, divergenceThreshold: real, reportDigest: Digest)

  datatype PrecedentRef = PrecedentRef(
    proposalId: string, proposalDigest: Digest, actionDigest: Digest, actionTypeKey: string, targetKey: string,
    decision: Option<DecisionValue>, decisionId: Option<string>, decisionDigest: Option<Digest>,
    similarity: Option<real>, similarityErrorCode: Option<string>,
    evaluationId: string, traceDigest: Digest,
    receiptId: Option<string>, receiptDigest: Option<Digest>, receiptStatus: Option<ExecutionStatus>,
    consequenceRefs: seq<ConsequenceRef>)

  datatype CapabilityFact = CapabilityFact(
    capabilityId: string, subjectRef: string, state: DependencyState, snapshotDigest: Digest, evidenceRefs: seq<EvidenceRef>)

  datatype Proposal = Proposal(
    proposalId: string, parentProposalId: Option<string>,
    sourceModifyDecisionId: Option<string>, sourceModifyDecisionValue: Option<DecisionValue>,
    agentId: string, sessionId: string,
    actionType: string, actionTypeKey: string, target: string, targetKey: string,
    reasoning: string, purpose: string,
    parametersJson: string, impactAssessmentJson: string, predictedOutcomeJson: string,
    evidenceRefs: seq<EvidenceRef>, dependencies: seq<DependencyRef>,
    actionDigest: Digest, proposalDigest: Digest)

  datatype EvaluationSnapshot = EvaluationSnapshot(
    evaluationId: string, snapshotId: string, profileVersion: Option<string>,
    proposal: Proposal, policy: PolicyInput,
    precedents: seq<PrecedentRef>, exclusions: seq<ExclusionRef>,
    capabilities: seq<CapabilityFact>, dependencies: seq<DependencyRef>,
    prior: Option<PriorEvaluation>, capturedAt: string, snapshotDigest: Digest)

  datatype PriorEvaluation = PriorEvaluation(proposalId: string, result: CheckResult)

  // ----- triggered predicates

  datatype Predicate =
    | HardPolicyOutside
    | PolicySourceUnresolved
    | TargetScopeUnresolved
    | ActiveExclusionSame
    | SimilarityUnresolved(id: string)
    | NoQualifyingApprove
    | PrecedentConflict
    | EvidenceMissing(id: string)
    | HighDivergence(id: string)
    | MissingConsequence(id: string)
    | CapabilityMissing(id: string)
    | CapabilityFalse(id: string)
    | CapabilityUnresolved(id: string)
    | DependencyFalse(id: string)
    | CompleteFormula(id: string)
    | IncompleteFormula(id: string)
  {
    /** The fact rule a predicate belongs to. */
    function Rule(): RuleName {
      match this
      case HardPolicyOutside => F02
      case PolicySourceUnresolved => F02
      case TargetScopeUnresolved => F02
      case ActiveExclusionSame => F03
      case SimilarityUnresolved(_) => F04
      case NoQualifyingApprove => F05
      case PrecedentConflict => F06
      case EvidenceMissing(_) => F07
      case HighDivergence(_) => F08
      case MissingConsequence(_) => F08
      case CapabilityMissing(_) => F09
      case CapabilityFalse(_) => F09
      case CapabilityUnresolved(_) => F09
      case DependencyFalse(_) => F10
      case CompleteFormula(_) => F10
      case IncompleteFormula(_) => F10
    }

    /** What a predicate is about; the proposal itself unless it names another subject. */
    function Subject(proposalId: string): string {
      match this
      case HardPolicyOutside => proposalId
      case PolicySourceUnresolved => proposalId
      case TargetScopeUnresolved => proposalId
      case ActiveExclusionSame => proposalId
      case SimilarityUnresolved(id) => id
      case NoQualifyingApprove => proposalId
      case PrecedentConflict => proposalId
      case EvidenceMissing(id) => id
      case HighDivergence(id) => id
      case MissingConsequence(id) => id
      case CapabilityMissing(id) => id
      case CapabilityFalse(id) => id
      case CapabilityUnresolved(id) => id
      case DependencyFalse(id) => id
      case CompleteFormula(id) => id
      case IncompleteFormula(id) => id
    }
  }

  // ----- trace steps

  datatype ExclusionRow = ExclusionRow(
    exclusionId: string, same: bool, exclusionDigest: Digest,
    actionType: string, actionTypeKey: string, target: string, targetKey: string,
    sourceProposalId: string, sourceEvaluationId: string, sourceTraceDigest: Digest,
    sourceDecisionId: string, sourceDecision: DecisionValue, sourceDecisionDigest: Digest)

  datatype Nearness = Near | Far | Unknown

  datatype CandidateRow = CandidateRow(
    proposalId: string, evaluationId: string, similarity: Option<real>, nearness: Nearness, errorCode: Option<string>)

  datatype IdentityRow = IdentityRow(proposalId: string, evaluationId: string, same: bool)

  datatype DecisionRow = DecisionRow(
    proposalId: string, evaluationId: string, decision: Option<DecisionValue>, decisionId: Option<string>)

  datatype RequirementRow = RequirementRow(
    requirementId: string, kind: string, satisfied: bool, evidenceRefId: Option<string>)

  datatype ReportRow = ReportRow(
    precedentProposalId: string, receiptId: string, consequenceId: string, divergence: real, more: bool)

  /** The state of a required capability; none when no fact is bound. */
  datatype CapabilityRow = CapabilityRow(capabilityId: string, state: Option<DependencyState>)

  /** The structured result a step records. */
  datatype Fact =
    | Binding(
        proposalId: string, proposalDigest: Digest, actionDigest: Digest, snapshotId: string, snapshotDigest: Digest,
        profileVersion: Option<string>, priorEvaluationId: Option<string>, priorTraceDigest: Option<Digest>,
        policyDigest: Digest, ruleConfigDigest: Digest, capturedAt: string)
    | Scope(hasAllow: bool, hasDeny: bool, applicableRuleIds: seq<string>)
    | Exclusions(someSame: bool, exclusionRows: seq<ExclusionRow>)
    | Retrieval(
        candidateCount: nat, validCount: nat, unresolvedCount: nat,
        someNear: bool, someUnresolved: bool, allUnresolved: bool, candidateRows: seq<CandidateRow>)
    | Identity(someQualifying: bool, identityRows: seq<IdentityRow>)
    | Conflict(approved: bool, rejected: bool, modified: bool, undecided: bool, conflict: bool, decisionRows: seq<DecisionRow>)
    | Evidence(allSatisfied: bool, requirementRows: seq<RequirementRow>)
    | Consequences(
        qualifyingIds: seq<string>, missingIds: seq<string>, reportCount: nat,
        someMore: bool, someMissingConsequence: bool, reportRows: seq<ReportRow>)
    | Capabilities(someFalse: bool, someUnresolvedCapability: bool, someMissing: bool, capabilityRows: seq<CapabilityRow>)
    | Formula(dependency: DependencyRef, predicateSatisfied: bool, thenPart: bool)
    | Aggregate(triggered: set<Predicate>)
    | Reduced(reducedVerdict: Verdict, reducedRisk: Risk, reducedDecisive: seq<string>)
    | Conclusion(verdict: Verdict, risk: Risk)
    | BlockedEarly

  datatype TraceStep =
    | OperatorStep(
        stepId: string, rule: RuleName, family: Family, pole: Pole, subjectRef: string,
        objectRefs: seq<string>, gapRefs: set<EvidenceGap>, fact: Fact, evidenceRefs: seq<EvidenceRef>)
    | ReducerStep(stepId: string, rule: RuleName, family: Family, pole: Pole, decisive: seq<string>, fact: Fact)

  datatype CheckResult = CheckResult(
    verdict: Verdict, risk: Risk, trace: seq<TraceStep>, gaps: set<EvidenceGap>,
    dependencies: seq<DependencyRef>, precedentRefs: seq<string>, consequenceWarningRefs: seq<string>,
    becauseStepId: string, evaluationId: string, profileVersion: Option<string>,
    priorEvaluationId: Option<string>, changedFactRules: set<RuleName>,
    evaluatorVersion: string, ruleConfigDigest: Digest, inputSnapshotDigest: Digest, policyDigest: Digest,
    traceDigest: Digest)

  datatype BlockedResult = BlockedResult(
    evaluationId: string, priorEvaluationId: Option<string>, error: ErrorCode,
    trace: seq<TraceStep>, evaluatorVersion: string, ruleConfigDigest: Digest, inputSnapshotDigest: Digest,
    policyDigest: Digest, traceDigest: Digest)

  // ----- ledger records

  datatype DecisionRecord = DecisionRecord(
    decisionId: string, proposalId: string, evaluationId: string, traceDigest: Digest,
    decision: DecisionValue, decidedBy: string, rationale: string, decisionDigest: Digest, idempotencyKey: string)

  /** The columns that bind an execution to the decision that authorizes it. */
  datatype Authority = Authority(
    proposalId: string, evaluationId: string, traceDigest: Digest, decisionId: string, decisionDigest: Digest)

  datatype Effect = Effect(
    effectId: string, authority: Authority, actionDigest: Digest, targetKey: string, effectKey: string,
    version: nat, priorId: Option<string>, priorVersion: Option<nat>, before: Digest, value: string, digest: Digest,
    executorId: string, idempotencyKey: string)

  datatype Attempt = Attempt(
    attemptId: string, authority: Authority, actionDigest: Digest, targetKey: string, effectKey: string,
    requestedValue: string, startedAt: nat, finishedAt: nat, status: ExecutionStatus, effectId: Option<string>,
    before: Digest, after: Option<Digest>, version: Option<nat>, outcomeDigest: Digest, attemptDigest: Digest,
    executorId: string, idempotencyKey: string)

  datatype Receipt = Receipt(
    receiptId: string, attemptId: string, attemptDigest: Digest, authority: Authority, actionDigest: Digest,
    targetKey: string, status: ExecutionStatus, outcomeDigest: Digest, before: Digest, after: Option<Digest>,
    version: Option<nat>, executorId: string, idempotencyKey: string, receiptDigest: Digest)

  datatype Summary = SummaryMore | SummaryLess

  datatype ConsequenceReport = ConsequenceReport(
    consequenceId: string, proposalId: string, receiptId: string, receiptStatus: ExecutionStatus, receiptDigest: Digest,
    observationNumber: nat, predictedDigest: Digest, actualDigest: Digest, comparisonVersion: string, predictedText: string, actualText: string,
    leaves: seq<Divergence.Leaf>, score: real, threshold: real, summary: Summary, reportedBy: string,
    reportDigest: Digest, idempotencyKey: string)
}
