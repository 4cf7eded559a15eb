/** The serializable transactions of the ledger: each is an atomic step on the tables, written
    out statement by statement in the methods of the database adapter. */
module LedgerSteps {
  import opened Divergence
  import opened Gate
  import opened Json
  import opened JsonRoundTrip
  import opened JsonText
  import opened LedgerTables
  import opened Models
  import opened Sequences
  import opened Traces

  /** The answer of a transaction: rows written, a replay of rows written before, a conflict or a
      refusal without effect, or a violated constraint that rolled everything back. */
  datatype Reply<+T> = Written(value: T) | Replayed(value: T) | Conflicting | Refused | Violated

  datatype Tx<+T> = Tx(tables: Tables, reply: Reply<T>)

  // ----- row selection

  function HasProposalId(id: string): Proposal -> bool { (p: Proposal) => p.proposalId == id }
  function HasEvaluationId(id: string): EvaluationRow -> bool { (e: EvaluationRow) => e.Id() == id }
  function OfProposalRow(id: string): EvaluationRow -> bool { (e: EvaluationRow) => e.proposalId == id }
  function FinalizedOf(id: string): EvaluationRow -> bool { (e: EvaluationRow) => e.proposalId == id && e.outcome.Finalized? }
  function DecisionKeyed(key: string): DecisionRecord -> bool { (d: DecisionRecord) => d.idempotencyKey == key }
  function DecidesProposal(id: string): DecisionRecord -> bool { (d: DecisionRecord) => d.proposalId == id }
  function HasDecisionId(id: string): DecisionRecord -> bool { (d: DecisionRecord) => d.decisionId == id }
  function ExcludedBy(id: string): ExclusionRef -> bool { (x: ExclusionRef) => x.sourceDecisionId == id }
  function HasEffectKey(key: string): Effect -> bool { (e: Effect) => e.effectKey == key }
  function EffectOf(decisionId: string): Effect -> bool { (e: Effect) => e.authority.decisionId == decisionId }
  function ReceiptKeyed(key: string): Receipt -> bool { (r: Receipt) => r.idempotencyKey == key }
  function ReceiptFor(key: string, decisionId: string): Receipt -> bool {
    (r: Receipt) => r.idempotencyKey == key || r.authority.decisionId == decisionId
  }
  function HasReceiptId(id: string): Receipt -> bool { (r: Receipt) => r.receiptId == id }
  function HasAttemptId(id: string): Attempt -> bool { (a: Attempt) => a.attemptId == id }
  function ReportKeyed(key: string): ConsequenceReport -> bool { (c: ConsequenceReport) => c.idempotencyKey == key }

  // ----- proposals and evaluations

  ghost predicate OutcomeAccepted(o: Outcome) {
    match o case Finalized(r) => ResultAccepted(r) case Blocked(b) => BlockedAccepted(b)
  }

  /** Snapshot and result are valid and bound to each other. */
  ghost predicate BindingAccepted(s: EvaluationSnapshot, o: Outcome) {
    var row := EvaluationRow(s.proposal.proposalId, o);
    && SnapshotAccepted(s) && OutcomeAccepted(o)
    && s.proposal.actionDigest == ActionDigest(s.proposal)
    && s.proposal.proposalDigest == ProposalDigest(s.proposal)
    && s.policy.policyDigest == PolicyDigest(s.policy)
    && row.Id() == s.evaluationId && row.SnapshotDigest() == s.snapshotDigest
    && (match o
        case Finalized(r) => r.policyDigest == s.policy.policyDigest && r.profileVersion == s.profileVersion
        case Blocked(b) => b.policyDigest == s.policy.policyDigest && s.profileVersion.None?)
  }

  function ReportedChanges(o: Outcome): set<RuleName> { if o.Finalized? then o.result.changedFactRules else {} }

  ghost predicate FirstAccepted(p: Proposal, s: EvaluationSnapshot, o: Outcome) {
    BindingAccepted(s, o) && s.proposal == p && s.prior.None? && EvaluationRow("", o).PriorId().None? && ReportedChanges(o) == {}
  }

  /** The first evaluation of a new proposal, or its replay. */
  ghost function Submitted(t: Tables, p: Proposal, s: EvaluationSnapshot, o: Outcome): Tx<string> {
    var row := EvaluationRow(p.proposalId, o);
    if !FirstAccepted(p, s, o) then Tx(t, Refused)
    else
      match FindLast(HasProposalId(p.proposalId), t.proposals)
      case Present(existing) =>
        (match FindLast(HasEvaluationId(row.Id()), t.evaluations)
         case Present(e) =>
           if existing.proposalDigest == p.proposalDigest && e.proposalId == p.proposalId && e.TraceDigest() == row.TraceDigest()
           then Tx(t, Replayed(row.Id())) else Tx(t, Conflicting)
         case Absent => Tx(t, Conflicting))
      case Absent =>
        var u := t.(proposals := t.proposals + [p]);
        if !ProposalAllowed(t, p) || !EvaluationAllowed(u, row) then Tx(t, Violated)
        else Tx(u.(evaluations := u.evaluations + [row]), Written(row.Id()))
  }

  ghost predicate NextAccepted(s: EvaluationSnapshot, o: Outcome) {
    && BindingAccepted(s, o) && s.prior.Some?
    && EvaluationRow("", o).PriorId() == Some(s.prior.value.result.evaluationId)
    && s.prior.value.proposalId == s.proposal.proposalId
  }

  /** A further evaluation, appended behind the one its snapshot names as prior. */
  ghost function ReEvaluated(t: Tables, s: EvaluationSnapshot, o: Outcome): Tx<string> {
    var row := EvaluationRow(s.proposal.proposalId, o);
    if !NextAccepted(s, o) then Tx(t, Refused)
    else
      match FindLast(HasEvaluationId(row.Id()), t.evaluations)
      case Present(e) => if e.TraceDigest() == row.TraceDigest() then Tx(t, Replayed(row.Id())) else Tx(t, Conflicting)
      case Absent =>
        match FindLast(OfProposalRow(s.proposal.proposalId), t.evaluations)
        case Absent => Tx(t, Conflicting)
        case Present(latest) =>
          if latest.Id() != s.prior.value.result.evaluationId || latest.TraceDigest() != s.prior.value.result.traceDigest
          then Tx(t, Conflicting)
          else if !EvaluationAllowed(t, row) then Tx(t, Violated)
          else Tx(t.(evaluations := t.evaluations + [row]), Written(row.Id()))
  }

  // ----- human decisions

  datatype DecisionRequest = DecisionRequest(
    proposalId: string, evaluationId: string, traceDigest: Digest, decision: DecisionValue,
    decidedBy: string, rationale: string, idempotencyKey: string, exclude: bool)

  /** The check in its own transactions before the decision: the evaluation is finalized, valid
      and the latest finalized one of its proposal. */
  ghost function Reviewed(t: Tables, q: DecisionRequest): Option<Proposal> {
    match (FindLast(HasProposalId(q.proposalId), t.proposals), FindLast(HasEvaluationId(q.evaluationId), t.evaluations),
           FindLast(FinalizedOf(q.proposalId), t.evaluations))
    case (Present(p), Present(e), Present(latest)) =>
      if (q.exclude && q.decision != Reject) || e.outcome.Blocked? || !OutcomeAccepted(e.outcome)
         || e.TraceDigest() != q.traceDigest || latest.Id() != q.evaluationId || latest.TraceDigest() != q.traceDigest
      then None else Some(p)
    case _ => None
  }

  function ExclusionKeyOf(key: string): string { "exclude:" + key }

  function DecisionFor(q: DecisionRequest, id: string): DecisionRecord {
    var d := DecisionRecord(id, q.proposalId, q.evaluationId, q.traceDigest, q.decision, q.decidedBy, q.rationale, Zero, q.idempotencyKey);
    d.(decisionDigest := DecisionDigest(d))
  }

  function ExclusionFor(p: Proposal, d: DecisionRecord, id: string): ExclusionRef {
    var x := ExclusionRef(id, p.actionType, p.actionTypeKey, p.target, p.targetKey, d.rationale, d.proposalId, d.evaluationId,
                          d.traceDigest, d.decisionId, Reject, d.decisionDigest, Zero, ExclusionKeyOf(d.idempotencyKey));
    x.(exclusionDigest := ExclusionDigest(x))
  }

  predicate SameRequest(d: DecisionRecord, q: DecisionRequest) {
    && d.proposalId == q.proposalId && d.evaluationId == q.evaluationId && d.traceDigest == q.traceDigest
    && d.decision == q.decision && d.decidedBy == q.decidedBy && d.rationale == q.rationale
  }

  /** The replay of a decision already stored under the idempotency key. */
  function DecisionReplay(t: Tables, q: DecisionRequest, d: DecisionRecord): Reply<DecisionRecord> {
    if d.decisionDigest != DecisionDigest(d) then Refused
    else if !SameRequest(d, q) then Conflicting
    else
      match FindLast(ExcludedBy(d.decisionId), t.exclusions)
      case Absent => if q.exclude then Conflicting else Replayed(d)
      case Present(x) =>
        if x.exclusionDigest != ExclusionDigest(x) then Refused else if q.exclude then Replayed(d) else Conflicting
  }

  function Decided(t: Tables, q: DecisionRequest, p: Proposal, decisionId: string, exclusionId: string): Tx<DecisionRecord> {
    match FindLast(DecisionKeyed(q.idempotencyKey), t.decisions)
    case Present(d) => Tx(t, DecisionReplay(t, q, d))
    case Absent =>
      if FindLast(DecidesProposal(q.proposalId), t.decisions).Present? then Tx(t, Refused)
      else
        var d := DecisionFor(q, decisionId);
        var u := t.(decisions := t.decisions + [d]);
        if !DecisionAllowed(t, d) then Tx(t, Violated)
        else if !q.exclude then Tx(u, Written(d))
        else
          var x := ExclusionFor(p, d, exclusionId);
          if !ExclusionAllowed(u, x) then Tx(t, Violated)
          else Tx(u.(exclusions := u.exclusions + [x]), Written(d))
  }

  // ----- execution

  datatype Command = Command(decisionId: string, executorId: string, idempotencyKey: string)

  /** Identities and times drawn by one transaction attempt. */
  datatype Draws = Draws(effectId: string, attemptId: string, receiptId: string, startedAt: nat, finishedAt: nat)

  datatype FailedEffect = FailedEffect(command: Command, proposal: Proposal, decision: DecisionRecord, plan: EffectPlan, before: Digest)

  /** Whether the database answers the effect insert with an error that proves the rollback. */
  datatype Fault = Healthy | EffectFails

  datatype ExecuteReply = Receipted(reply: Reply<Receipt>) | ProvenRollback(failed: FailedEffect)

  datatype ExecuteTx = ExecuteTx(tables: Tables, answer: ExecuteReply)

  function StoredReceipt(c: Command, r: Receipt): Reply<Receipt> {
    if r.receiptDigest != ReceiptDigest(r) || r.authority.decisionId != c.decisionId || r.executorId != c.executorId then Refused
    else Replayed(r)
  }

  predicate ProposalIntact(p: Proposal) {
    p.proposalDigest == ProposalDigest(p) && p.actionDigest == ActionDigest(p)
  }

  predicate ApprovalIntact(d: DecisionRecord) {
    d.decisionDigest == DecisionDigest(d) && d.decision == Approve
  }

  ghost predicate EvaluationIntact(e: EvaluationRow, d: DecisionRecord) {
    e.outcome.Finalized? && OutcomeAccepted(e.outcome) && e.TraceDigest() == d.traceDigest
  }

  /** The approved decision with its proposal, when the whole authority chain holds. */
  ghost function Authorized(t: Tables, c: Command): Option<(DecisionRecord, Proposal)> {
    match FindLast(HasDecisionId(c.decisionId), t.decisions)
    case Absent => None
    case Present(d) =>
      match (FindLast(HasProposalId(d.proposalId), t.proposals), FindLast(HasEvaluationId(d.evaluationId), t.evaluations))
      case (Present(p), Present(e)) =>
        if ApprovalIntact(d) && ProposalIntact(p) && EvaluationIntact(e, d) then Some((d, p)) else None
      case _ => None
  }

  /** The effect of a key with the highest version. */
  function Newest(es: seq<Effect>): Found<Effect> {
    if es == [] then Absent
    else
      match Newest(es[..|es| - 1])
      case Absent => Present(es[|es| - 1])
      case Present(e) => if e.version > es[|es| - 1].version then Present(e) else Present(es[|es| - 1])
  }

  function LatestEffect(t: Tables, key: string): Found<Effect> { Newest(Filter(HasEffectKey(key), t.effects)) }

  function EffectFor(t: Tables, c: Command, d: DecisionRecord, p: Proposal, plan: EffectPlan, id: string): Effect {
    var prior := LatestEffect(t, plan.key);
    var e := Effect(id, AuthorityOf(d), p.actionDigest, p.targetKey, plan.key,
                    if prior.Present? then prior.row.version + 1 else 1,
                    if prior.Present? then Some(prior.row.effectId) else None,
                    if prior.Present? then Some(prior.row.version) else None,
                    if prior.Present? then prior.row.digest else Zero,
                    plan.value, Zero, c.executorId, c.idempotencyKey);
    e.(digest := EffectDigest(e))
  }

  function Sealed(a: Attempt): Attempt {
    var b := a.(outcomeDigest := OutcomeDigest(a), attemptDigest := Zero);
    b.(attemptDigest := AttemptDigest(b))
  }

  function ObservedAttempt(e: Effect, w: Draws): Attempt {
    Sealed(Attempt(w.attemptId, e.authority, e.actionDigest, e.targetKey, e.effectKey, e.value, w.startedAt, w.finishedAt,
                   Observed, Some(e.effectId), e.before, Some(e.digest), Some(e.version), Zero, Zero, e.executorId, e.idempotencyKey))
  }

  function ErrorAttempt(f: FailedEffect, w: Draws): Attempt {
    Sealed(Attempt(w.attemptId, AuthorityOf(f.decision), f.proposal.actionDigest, f.proposal.targetKey, f.plan.key, f.plan.value,
                   w.startedAt, w.finishedAt, Error, None, f.before, None, None, Zero, Zero, f.command.executorId,
                   f.command.idempotencyKey))
  }

  function ReceiptOf(a: Attempt, id: string): Receipt {
    var r := Receipt(id, a.attemptId, a.attemptDigest, a.authority, a.actionDigest, a.targetKey, a.status, a.outcomeDigest,
                     a.before, a.after, a.version, a.executorId, a.idempotencyKey, Zero);
    r.(receiptDigest := ReceiptDigest(r))
  }

  /** The two inserts that close an execution. */
  function Closed(begin: Tables, t: Tables, a: Attempt, receiptId: string): Tx<Receipt> {
    var u := t.(attempts := t.attempts + [a]);
    var r := ReceiptOf(a, receiptId);
    if !AttemptAllowed(t, a) || !ReceiptAllowed(u, r) then Tx(begin, Violated)
    else Tx(u.(receipts := u.receipts + [r]), Written(r))
  }

  function AuthorizedExecution(t: Tables, c: Command, d: DecisionRecord, p: Proposal, w: Draws, fault: Fault): ExecuteTx {
    match ValidateEffect(p)
    case None => ExecuteTx(t, Receipted(Refused))
    case Some(plan) =>
      var e := EffectFor(t, c, d, p, plan, w.effectId);
      if fault == EffectFails || !EffectAllowed(t, e) then ExecuteTx(t, ProvenRollback(FailedEffect(c, p, d, plan, e.before)))
      else
        var closed := Closed(t, t.(effects := t.effects + [e]), ObservedAttempt(e, w), w.receiptId);
        ExecuteTx(closed.tables, Receipted(closed.reply))
  }

  /** The effect transaction. */
  ghost function Executed(t: Tables, self: string, c: Command, w: Draws, fault: Fault): ExecuteTx {
    var known := Filter(ReceiptFor(c.idempotencyKey, c.decisionId), t.receipts);
    if c.executorId != self || |known| > 1 then ExecuteTx(t, Receipted(Refused))
    else if |known| == 1 then ExecuteTx(t, Receipted(StoredReceipt(c, known[0])))
    else
      match Authorized(t, c)
      case None => ExecuteTx(t, Receipted(Refused))
      case Some((d, p)) => AuthorizedExecution(t, c, d, p, w, fault)
  }

  /** The later transaction that records a proven rollback. */
  function ErrorRecorded(t: Tables, f: FailedEffect, w: Draws): Tx<Receipt> {
    match FindLast(ReceiptKeyed(f.command.idempotencyKey), t.receipts)
    case Present(r) =>
      if r.receiptDigest != ReceiptDigest(r) || r.authority.decisionId != f.decision.decisionId || r.status != Error then Tx(t, Refused)
      else Tx(t, Replayed(r))
    case Absent =>
      if FindLast(EffectOf(f.decision.decisionId), t.effects).Present? then Tx(t, Refused)
      else Closed(t, t, ErrorAttempt(f, w), w.receiptId)
  }

  // ----- consequences

  datatype Observation = Observation(
    receiptId: string, number: nat, actualText: string, reportedBy: string, idempotencyKey: string)

  function ReportOf(r: Receipt, predicted: Json, actual: Json, result: DivergenceResult, o: Observation, id: string): ConsequenceReport {
    var c := ConsequenceReport(
      id, r.authority.proposalId, r.receiptId, Observed, r.receiptDigest, o.number, OfJson(result.predictedDigest.document),
      OfJson(result.actualDigest.document), result.comparisonVersion,
      PlainJson(predicted), PlainJson(actual), result.leaves, result.score, result.threshold,
      if result.score >= result.threshold then SummaryMore else SummaryLess, o.reportedBy, Zero, o.idempotencyKey);
    c.(reportDigest := ReportDigest(c))
  }

  function ReportFor(r: Receipt, predicted: Json, actual: Json, o: Observation, id: string): ConsequenceReport {
    ReportOf(r, predicted, actual, Divergence.Divergence(predicted, actual, DEFAULT_THRESHOLD), o, id)
  }

  function ReportReplay(c: ConsequenceReport, o: Observation, actual: Json): Reply<ConsequenceReport> {
    if c.reportDigest != ReportDigest(c) then Refused
    else if c.receiptId == o.receiptId && c.observationNumber == o.number && c.actualText == PlainJson(actual) && c.reportedBy == o.reportedBy
    then Replayed(c) else Conflicting
  }

  /** The receipt binds an observed effect of a finalized evaluation. */
  predicate Reportable(t: Tables, r: Receipt) {
    && r.receiptDigest == ReceiptDigest(r) && r.status == Observed && r.after.Some? && r.version.Some?
    && (match FindLast(HasAttemptId(r.attemptId), t.attempts) case Absent => false case Present(a) => a.effectId.Some?)
    && FindLast(HasDecisionId(r.authority.decisionId), t.decisions).Present?
    && (match FindLast(HasEvaluationId(r.authority.evaluationId), t.evaluations) case Absent => false case Present(e) => e.outcome.Finalized?)
  }

  /** Both texts of a comparison are canonical, so each stands for its document rounded once. */
  function Reported(t: Tables, o: Observation, id: string): Tx<ConsequenceReport> {
    match ReadText(o.actualText)
    case None => Tx(t, Refused)
    case Some(actual) =>
      if o.number == 0 || o.reportedBy == "" || o.idempotencyKey == "" then Tx(t, Refused)
      else
        match FindLast(ReportKeyed(o.idempotencyKey), t.reports)
        case Present(c) => Tx(t, ReportReplay(c, o, actual))
        case Absent =>
          match FindLast(HasReceiptId(o.receiptId), t.receipts)
          case Absent => Tx(t, Refused)
          case Present(r) => NewReport(t, r, actual, o, id)
  }

  function NewReport(t: Tables, r: Receipt, actual: Json, o: Observation, id: string): Tx<ConsequenceReport> {
    match FindLast(HasProposalId(r.authority.proposalId), t.proposals)
    case Absent => Tx(t, Refused)
    case Present(p) =>
      match ReadText(p.predictedOutcomeJson)
      case None => Tx(t, Refused)
      case Some(predicted) =>
        if !Reportable(t, r) then Tx(t, Refused)
        else
          var c := ReportFor(r, Rounded(predicted), Rounded(actual), o, id);
          if !ReportAllowed(t, c) then Tx(t, Violated) else Tx(t.(reports := t.reports + [c]), Written(c))
  }
}
