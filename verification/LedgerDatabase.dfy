/** The adapters' transactions, statement by statement: selects, guarded inserts, and a rollback
    to the first state of the transaction when an insert is refused. */
module LedgerDatabase {
  import opened Divergence
  import opened Gate
  import opened Json
  import opened JsonRoundTrip
  import opened JsonText
  import opened LedgerSteps
  import opened LedgerTables
  import opened Models
  import opened Sequences
  import opened Traces

  method ValidateOutcome(o: Outcome) returns (ok: bool)
    ensures ok <==> OutcomeAccepted(o)
  {
    hide ResultAccepted, TraceAccepted;
    match o {
      case Finalized(r) => ok := ValidateCheckResult(r);
      case Blocked(b) =>
        var structured := ValidateTrace(b.evaluationId, b.trace, None, true);
        ok := structured && b.traceDigest == BlockedDigest(b);
    }
  }

  method ValidateBinding(s: EvaluationSnapshot, o: Outcome) returns (ok: bool)
    ensures ok <==> BindingAccepted(s, o)
  {
    hide SnapshotAccepted, OutcomeAccepted, ActionDigest, ProposalDigest, PolicyDigest;
    var row := EvaluationRow(s.proposal.proposalId, o);
    var snapshot := ValidateSnapshot(s);
    var outcome := ValidateOutcome(o);
    return snapshot && outcome
      && s.proposal.actionDigest == ActionDigest(s.proposal)
      && s.proposal.proposalDigest == ProposalDigest(s.proposal)
      && s.policy.policyDigest == PolicyDigest(s.policy)
      && row.Id() == s.evaluationId && row.SnapshotDigest() == s.snapshotDigest
      && (match o
          case Finalized(r) => r.policyDigest == s.policy.policyDigest && r.profileVersion == s.profileVersion
          case Blocked(b) => b.policyDigest == s.policy.policyDigest && s.profileVersion.None?);
  }

  class Database {
    var tables: Tables

    constructor ()
      ensures tables == EMPTY
    {
      tables := EMPTY;
    }

    // ----- guarded inserts

    method InsertEvaluation(e: EvaluationRow) returns (ok: bool)
      modifies this
      ensures ok <==> EvaluationAllowed(old(tables), e)
      ensures tables == if ok then old(tables).(evaluations := old(tables).evaluations + [e]) else old(tables)
    {
      ok := EvaluationAllowed(tables, e);
      if ok { tables := tables.(evaluations := tables.evaluations + [e]); }
    }

    method InsertEffect(e: Effect, fault: Fault) returns (ok: bool)
      modifies this
      ensures ok <==> fault == Healthy && EffectAllowed(old(tables), e)
      ensures tables == if ok then old(tables).(effects := old(tables).effects + [e]) else old(tables)
    {
      ok := fault == Healthy && EffectAllowed(tables, e);
      if ok { tables := tables.(effects := tables.effects + [e]); }
    }

    /** Attempt and receipt of one execution; begin is what a rollback restores. */
    method Close(ghost begin: Tables, a: Attempt, receiptId: string) returns (ok: bool, receipt: Receipt)
      modifies this
      ensures ok <==> Closed(begin, old(tables), a, receiptId).reply.Written?
      ensures ok ==> Closed(begin, old(tables), a, receiptId) == Tx(tables, Written(receipt))
      ensures !ok ==> Closed(begin, old(tables), a, receiptId) == Tx(begin, Violated)
    {
      receipt := ReceiptOf(a, receiptId);
      if !AttemptAllowed(tables, a) { return false, receipt; }
      tables := tables.(attempts := tables.attempts + [a]);
      if !ReceiptAllowed(tables, receipt) { return false, receipt; }
      tables := tables.(receipts := tables.receipts + [receipt]);
      ok := true;
    }

    // ----- proposals and evaluations

    method AppendProposalAndEvaluation(p: Proposal, s: EvaluationSnapshot, o: Outcome) returns (reply: Reply<string>)
      modifies this
      ensures Tx(tables, reply) == Submitted(old(tables), p, s, o)
    {
      hide BindingAccepted, ProposalAllowed, EvaluationAllowed;
      var row := EvaluationRow(p.proposalId, o);
      var bound := ValidateBinding(s, o);
      if !bound || s.proposal != p || s.prior.Some? || EvaluationRow("", o).PriorId().Some? || ReportedChanges(o) != {} { return Refused; }
      var existing := FindLast(HasProposalId(p.proposalId), tables.proposals);
      if existing.Present? {
        var e := FindLast(HasEvaluationId(row.Id()), tables.evaluations);
        if existing.row.proposalDigest == p.proposalDigest && e.Present? && e.row.proposalId == p.proposalId
           && e.row.TraceDigest() == row.TraceDigest() {
          return Replayed(row.Id());
        }
        return Conflicting;
      }
      var begin := tables;
      if !ProposalAllowed(tables, p) { return Violated; }
      tables := tables.(proposals := tables.proposals + [p]);
      var inserted := InsertEvaluation(row);
      if !inserted {
        tables := begin;
        return Violated;
      }
      reply := Written(row.Id());
    }

    method AppendReEvaluation(s: EvaluationSnapshot, o: Outcome) returns (reply: Reply<string>)
      modifies this
      ensures Tx(tables, reply) == ReEvaluated(old(tables), s, o)
    {
      hide BindingAccepted, EvaluationAllowed;
      var row := EvaluationRow(s.proposal.proposalId, o);
      var bound := ValidateBinding(s, o);
      if !bound || s.prior.None? || EvaluationRow("", o).PriorId() != Some(s.prior.value.result.evaluationId)
         || s.prior.value.proposalId != s.proposal.proposalId {
        return Refused;
      }
      var existing := FindLast(HasEvaluationId(row.Id()), tables.evaluations);
      if existing.Present? {
        return if existing.row.TraceDigest() == row.TraceDigest() then Replayed(row.Id()) else Conflicting;
      }
      var latest := FindLast(OfProposalRow(s.proposal.proposalId), tables.evaluations);
      if latest.Absent? || latest.row.Id() != s.prior.value.result.evaluationId
         || latest.row.TraceDigest() != s.prior.value.result.traceDigest {
        return Conflicting;
      }
      var inserted := InsertEvaluation(row);
      reply := if inserted then Written(row.Id()) else Violated;
    }

    // ----- decisions

    method ExactEvaluation(q: DecisionRequest) returns (proposal: Option<Proposal>)
      ensures proposal == Reviewed(tables, q)
    {
      hide OutcomeAccepted;
      if q.exclude && q.decision != Reject { return None; }
      var p := FindLast(HasProposalId(q.proposalId), tables.proposals);
      var e := FindLast(HasEvaluationId(q.evaluationId), tables.evaluations);
      if p.Absent? || e.Absent? || e.row.outcome.Blocked? { return None; }
      var valid := ValidateOutcome(e.row.outcome);
      if !valid || e.row.TraceDigest() != q.traceDigest { return None; }
      var latest := FindLast(FinalizedOf(q.proposalId), tables.evaluations);
      if latest.Absent? || latest.row.Id() != q.evaluationId || latest.row.TraceDigest() != q.traceDigest { return None; }
      return Some(p.row);
    }

    method AppendDecision(q: DecisionRequest, p: Proposal, decisionId: string, exclusionId: string) returns (reply: Reply<DecisionRecord>)
      modifies this
      ensures Tx(tables, reply) == Decided(old(tables), q, p, decisionId, exclusionId)
    {
      hide DecisionAllowed, ExclusionAllowed;
      var replay := FindLast(DecisionKeyed(q.idempotencyKey), tables.decisions);
      if replay.Present? { return DecisionReplay(tables, q, replay.row); }
      var prior := FindLast(DecidesProposal(q.proposalId), tables.decisions);
      if prior.Present? { return Refused; }
      var begin := tables;
      var d := DecisionFor(q, decisionId);
      if !DecisionAllowed(tables, d) { return Violated; }
      tables := tables.(decisions := tables.decisions + [d]);
      if q.exclude {
        var x := ExclusionFor(p, d, exclusionId);
        if !ExclusionAllowed(tables, x) {
          tables := begin;
          return Violated;
        }
        tables := tables.(exclusions := tables.exclusions + [x]);
      }
      reply := Written(d);
    }

    // ----- execution

    method FindAuthority(c: Command) returns (found: Option<(DecisionRecord, Proposal)>)
      ensures found == Authorized(tables, c)
    {
      hide OutcomeAccepted, ApprovalIntact, ProposalIntact;
      var d := FindLast(HasDecisionId(c.decisionId), tables.decisions);
      if d.Absent? { return None; }
      var p := FindLast(HasProposalId(d.row.proposalId), tables.proposals);
      var e := FindLast(HasEvaluationId(d.row.evaluationId), tables.evaluations);
      if p.Absent? || e.Absent? || !ApprovalIntact(d.row) || e.row.outcome.Blocked? { return None; }
      var valid := ValidateOutcome(e.row.outcome);
      if !valid || e.row.TraceDigest() != d.row.traceDigest || !ProposalIntact(p.row) { return None; }
      return Some((d.row, p.row));
    }

    /** The effect transaction: replay, authority, effect, attempt and receipt. */
    method Execute(self: string, c: Command, w: Draws, fault: Fault) returns (answer: ExecuteReply)
      modifies this
      ensures ExecuteTx(tables, answer) == Executed(old(tables), self, c, w, fault)
    {
      hide Authorized, EffectAllowed, ValidateEffect, LatestEffect, Closed, ObservedAttempt, Filter;
      if c.executorId != self { return Receipted(Refused); }
      var known := Filter(ReceiptFor(c.idempotencyKey, c.decisionId), tables.receipts);
      if |known| > 1 { return Receipted(Refused); }
      if |known| == 1 { return Receipted(StoredReceipt(c, known[0])); }
      var found := FindAuthority(c);
      if found.None? { return Receipted(Refused); }
      var (d, p) := found.value;
      var plan := ValidateEffect(p);
      if plan.None? { return Receipted(Refused); }
      var begin := tables;
      var e := EffectFor(tables, c, d, p, plan.value, w.effectId);
      var inserted := InsertEffect(e, fault);
      if !inserted { return ProvenRollback(FailedEffect(c, p, d, plan.value, e.before)); }
      var closed, receipt := Close(begin, ObservedAttempt(e, w), w.receiptId);
      if !closed {
        tables := begin;
        return Receipted(Violated);
      }
      answer := Receipted(Written(receipt));
    }

    /** The second transaction of a client whose effect was rolled back. */
    method AppendError(f: FailedEffect, w: Draws) returns (reply: Reply<Receipt>)
      modifies this
      ensures Tx(tables, reply) == ErrorRecorded(old(tables), f, w)
    {
      hide Closed, ErrorAttempt, ReceiptDigest;
      var existing := FindLast(ReceiptKeyed(f.command.idempotencyKey), tables.receipts);
      if existing.Present? {
        var r := existing.row;
        if r.receiptDigest != ReceiptDigest(r) || r.authority.decisionId != f.decision.decisionId || r.status != Error { return Refused; }
        return Replayed(r);
      }
      var effect := FindLast(EffectOf(f.decision.decisionId), tables.effects);
      if effect.Present? { return Refused; }
      var begin := tables;
      var closed, receipt := Close(begin, ErrorAttempt(f, w), w.receiptId);
      if !closed {
        tables := begin;
        return Violated;
      }
      reply := Written(receipt);
    }

    // ----- consequences

    method ReportConsequence(o: Observation, id: string) returns (reply: Reply<ConsequenceReport>)
      modifies this
      ensures Tx(tables, reply) == Reported(old(tables), o, id)
    {
      hide ReadText, Rounded, ReportAllowed, Reportable, ReportDigest, PlainJson;
      var actual := ReadText(o.actualText);
      if actual.None? || o.number == 0 || o.reportedBy == "" || o.idempotencyKey == "" { return Refused; }
      var existing := FindLast(ReportKeyed(o.idempotencyKey), tables.reports);
      if existing.Present? { return ReportReplay(existing.row, o, actual.value); }
      var found := FindLast(HasReceiptId(o.receiptId), tables.receipts);
      if found.Absent? { return Refused; }
      var r := found.row;
      var p := FindLast(HasProposalId(r.authority.proposalId), tables.proposals);
      if p.Absent? { return Refused; }
      var predicted := ReadText(p.row.predictedOutcomeJson);
      if predicted.None? || !Reportable(tables, r) { return Refused; }
      var compared := CompareJson(Rounded(predicted.value), Rounded(actual.value), DEFAULT_THRESHOLD);
      var c := ReportOf(r, Rounded(predicted.value), Rounded(actual.value), compared.result, o, id);
      if !ReportAllowed(tables, c) { return Violated; }
      tables := tables.(reports := tables.reports + [c]);
      reply := Written(c);
    }
  }
}
