/** The append-only tables and the SQL constraints that guard every insert. */
module LedgerTables {
  import opened Gate
  import opened Json
  import opened JsonRoundTrip
  import opened Models
  import opened Utf8

  datatype EvaluationRow = EvaluationRow(proposalId: string, outcome: Outcome) {
    function Id(): string { if outcome.Finalized? then outcome.result.evaluationId else outcome.blocked.evaluationId }
    function PriorId(): Option<string> {
      if outcome.Finalized? then outcome.result.priorEvaluationId else outcome.blocked.priorEvaluationId
    }
    function TraceDigest(): Digest { if outcome.Finalized? then outcome.result.traceDigest else outcome.blocked.traceDigest }
    function SnapshotDigest(): Digest {
      if outcome.Finalized? then outcome.result.inputSnapshotDigest else outcome.blocked.inputSnapshotDigest
    }
    /** The columns of the replay constraint. */
    function Replay(): (string, string, Digest, Digest, Digest) {
      match outcome
      case Finalized(r) => (proposalId, r.evaluatorVersion, r.ruleConfigDigest, r.inputSnapshotDigest, r.policyDigest)
      case Blocked(b) => (proposalId, b.evaluatorVersion, b.ruleConfigDigest, b.inputSnapshotDigest, b.policyDigest)
    }
  }

  datatype Tables = Tables(
    proposals: seq<Proposal>, evaluations: seq<EvaluationRow>, decisions: seq<DecisionRecord>, exclusions: seq<ExclusionRef>,
    effects: seq<Effect>, attempts: seq<Attempt>, receipts: seq<Receipt>, reports: seq<ConsequenceReport>)

  const EMPTY := Tables([], [], [], [], [], [], [], [])

  // ----- key and shape predicates

  predicate KeyChar(c: char) { 'a' <= c <= 'z' || '0' <= c <= '9' || c == '_' || c == '-' }

  predicate EffectKeyText(k: string) {
    1 <= |k| <= 64 && 'a' <= k[0] <= 'z' && forall i | 0 <= i < |k| :: KeyChar(k[i])
  }

  const TARGET_PREFIX := "demo_kv:"
  const ACTION_KEY := "set_demo_value"

  // ----- proposals

  predicate ProposalAllowed(t: Tables, p: Proposal) {
    && (forall q | q in t.proposals :: q.proposalId != p.proposalId)
    && (|| (p.parentProposalId.None? && p.sourceModifyDecisionId.None? && p.sourceModifyDecisionValue.None?)
        || (p.parentProposalId.Some? && p.sourceModifyDecisionId.Some? && p.sourceModifyDecisionValue == Some(Modify)
            && exists d | d in t.decisions ::
                 Some(d.decisionId) == p.sourceModifyDecisionId && d.decision == Modify && Some(d.proposalId) == p.parentProposalId))
  }

  // ----- evaluations

  predicate EvaluationAllowed(t: Tables, e: EvaluationRow) {
    && (forall f | f in t.evaluations :: f.Id() != e.Id() && f.Replay() != e.Replay())
    && (exists p | p in t.proposals :: p.proposalId == e.proposalId)
    && (e.PriorId().Some? ==> exists f | f in t.evaluations :: Some(f.Id()) == e.PriorId() && f.proposalId == e.proposalId)
    && (e.PriorId().None? && e.outcome.Finalized? ==> e.outcome.result.changedFactRules == {})
    && (e.outcome.Finalized? ==> e.outcome.result.profileVersion != Some(""))
  }

  // ----- decisions and exclusions

  predicate Finalizes(e: EvaluationRow, proposalId: string, evaluationId: string, digest: Digest) {
    e.outcome.Finalized? && e.proposalId == proposalId && e.Id() == evaluationId && e.TraceDigest() == digest
  }

  predicate DecisionAllowed(t: Tables, d: DecisionRecord) {
    && (forall c | c in t.decisions ::
          c.decisionId != d.decisionId && c.idempotencyKey != d.idempotencyKey
          && c.proposalId != d.proposalId && c.evaluationId != d.evaluationId)
    && (exists e | e in t.evaluations :: Finalizes(e, d.proposalId, d.evaluationId, d.traceDigest))
  }

  predicate ExclusionAllowed(t: Tables, x: ExclusionRef) {
    && (forall y | y in t.exclusions ::
          y.exclusionId != x.exclusionId && y.idempotencyKey != x.idempotencyKey
          && (y.actionTypeKey, y.targetKey, y.sourceDecisionId) != (x.actionTypeKey, x.targetKey, x.sourceDecisionId))
    && (exists d | d in t.decisions ::
          d.decisionId == x.sourceDecisionId && d.decision == Reject && d.proposalId == x.sourceProposalId
          && d.evaluationId == x.sourceEvaluationId && d.traceDigest == x.sourceTraceDigest
          && d.decisionDigest == x.sourceDecisionDigest)
    && (exists e | e in t.evaluations ::
          e.Id() == x.sourceEvaluationId && e.proposalId == x.sourceProposalId && e.TraceDigest() == x.sourceTraceDigest)
    && x.sourceDecisionValue == Reject
  }

  // ----- executions

  function AuthorityOf(d: DecisionRecord): Authority {
    Authority(d.proposalId, d.evaluationId, d.traceDigest, d.decisionId, d.decisionDigest)
  }

  predicate ApprovalHeld(t: Tables, a: Authority) {
    exists d | d in t.decisions :: d.decision == Approve && AuthorityOf(d) == a
  }

  predicate ActionBound(t: Tables, proposalId: string, targetKey: string, actionDigest: Digest) {
    exists p | p in t.proposals ::
      p.proposalId == proposalId && p.actionTypeKey == ACTION_KEY && p.targetKey == targetKey && p.actionDigest == actionDigest
  }

  predicate TargetBound(targetKey: string, effectKey: string) {
    targetKey == TARGET_PREFIX + effectKey && EffectKeyText(effectKey)
  }

  /** The row an effect names as its predecessor. */
  predicate Precedes(f: Effect, e: Effect) {
    Some(f.effectId) == e.priorId && f.effectKey == e.effectKey && Some(f.version) == e.priorVersion && f.digest == e.before
  }

  predicate VersionLineage(e: Effect) {
    || (e.version == 1 && e.priorId.None? && e.priorVersion.None?)
    || (e.version > 1 && e.priorId.Some? && e.priorVersion == Some(e.version - 1))
  }

  predicate EffectAllowed(t: Tables, e: Effect) {
    && (forall f | f in t.effects ::
          f.effectId != e.effectId && f.idempotencyKey != e.idempotencyKey
          && f.authority.decisionId != e.authority.decisionId
          && (f.effectKey, f.version) != (e.effectKey, e.version))
    && ActionBound(t, e.authority.proposalId, e.targetKey, e.actionDigest)
    && ApprovalHeld(t, e.authority)
    && TargetBound(e.targetKey, e.effectKey)
    && VersionLineage(e)
    && (e.priorId.Some? ==> exists f | f in t.effects :: Precedes(f, e))
  }

  /** The columns an observed attempt shares with its effect. */
  predicate Observes(a: Attempt, e: Effect) {
    && a.effectId == Some(e.effectId) && a.authority == e.authority && a.actionDigest == e.actionDigest
    && a.effectKey == e.effectKey && a.targetKey == e.targetKey && a.version == Some(e.version)
    && a.before == e.before && a.after == Some(e.digest) && a.executorId == e.executorId
  }

  predicate AttemptShape(a: Attempt) {
    && a.finishedAt >= a.startedAt
    && (match a.status
        case Observed => a.effectId.Some? && a.after.Some? && a.version.Some? && a.version.value > 0
        case Error => a.effectId.None? && a.after.None? && a.version.None?)
  }

  predicate AttemptAllowed(t: Tables, a: Attempt) {
    && (forall b | b in t.attempts ::
          b.attemptId != a.attemptId && b.idempotencyKey != a.idempotencyKey
          && (a.effectId.Some? ==> b.effectId != a.effectId))
    && ApprovalHeld(t, a.authority)
    && ActionBound(t, a.authority.proposalId, a.targetKey, a.actionDigest)
    && TargetBound(a.targetKey, a.effectKey)
    && AttemptShape(a)
    && (a.effectId.Some? ==> exists e | e in t.effects :: Observes(a, e))
  }

  /** The columns a receipt repeats from its attempt. */
  predicate Repeats(r: Receipt, a: Attempt) {
    && r.attemptId == a.attemptId && r.attemptDigest == a.attemptDigest && r.authority == a.authority
    && r.actionDigest == a.actionDigest && r.targetKey == a.targetKey && r.status == a.status
    && r.outcomeDigest == a.outcomeDigest && r.before == a.before && r.executorId == a.executorId
    && (r.status == Observed ==> r.after == a.after && r.version == a.version)
  }

  predicate ReceiptAllowed(t: Tables, r: Receipt) {
    && (forall q | q in t.receipts ::
          q.receiptId != r.receiptId && q.idempotencyKey != r.idempotencyKey && q.attemptId != r.attemptId)
    && (exists a | a in t.attempts :: Repeats(r, a))
    && ApprovalHeld(t, r.authority)
    && (match r.status
        case Observed => r.after.Some? && r.version.Some? && r.version.value > 0
        case Error => r.after.None? && r.version.None?)
  }

  // ----- consequence reports

  predicate ReportAllowed(t: Tables, c: ConsequenceReport) {
    && (forall d | d in t.reports ::
          d.consequenceId != c.consequenceId && d.idempotencyKey != c.idempotencyKey
          && (d.receiptId, d.observationNumber) != (c.receiptId, c.observationNumber))
    && (exists p | p in t.proposals :: p.proposalId == c.proposalId)
    && (exists r | r in t.receipts ::
          r.receiptId == c.receiptId && r.authority.proposalId == c.proposalId && r.status == Observed && r.receiptDigest == c.receiptDigest)
    && c.receiptStatus == Observed
    && c.observationNumber > 0
    && 0.0 <= c.score <= 1.0
    && c.threshold == 0.5
  }

  // ----- record digests

  function DecisionDigest(d: DecisionRecord): Digest { OfDecision(d.(decisionId := "", decisionDigest := Zero)) }
  function ExclusionDigest(x: ExclusionRef): Digest { OfExclusion(x.(exclusionId := "", exclusionDigest := Zero)) }
  function EffectDigest(e: Effect): Digest { OfEffect(e.(effectId := "", digest := Zero)) }
  function AttemptDigest(a: Attempt): Digest { OfAttempt(a.(attemptId := "", attemptDigest := Zero)) }
  function ReceiptDigest(r: Receipt): Digest { OfReceipt(r.(receiptId := "", receiptDigest := Zero)) }
  function ReportDigest(c: ConsequenceReport): Digest { OfReport(c.(reportDigest := Zero)) }
  function OutcomeDigest(a: Attempt): Digest { OfOutcome(a.status, a.effectId, a.effectKey, a.before, a.after, a.version) }

  // ----- the effect a proposal asks for

  datatype EffectPlan = EffectPlan(key: string, value: string)

  /** The allowlist check: SET_DEMO_VALUE on a lower-case demo key with canonical parameters. */
  function ValidateEffect(p: Proposal): Option<EffectPlan> {
    if p.actionType != "SET_DEMO_VALUE" || p.actionTypeKey != ACTION_KEY then None
    else if !(TARGET_PREFIX <= p.target) then None
    else
      var key := p.target[|TARGET_PREFIX|..];
      if !EffectKeyText(key) || p.targetKey != TARGET_PREFIX + key || |Encode(p.targetKey)| > 256 then None
      else
        match JsonScalar(p.parametersJson)
        case Accepted(_, canonical) => Some(EffectPlan(key, canonical))
        case Blocked(_) => None
  }
}
