/** What the ledger answers when the key or identity of a request is already stored: at every point
    of every run a replay for exactly the same request, otherwise a conflict or a refusal, and no write. */
module LedgerAnswers {
  import opened Gate
  import opened Json
  import opened JsonRoundTrip
  import opened JsonText
  import opened LedgerInvariant
  import opened LedgerRuns
  import opened LedgerSteps
  import opened LedgerTables
  import opened LedgerTheorems
  import opened Models
  import opened Sequences
  import Traces

  // ----- submissions

  lemma StoredProposal(t: Tables, p: Proposal)
    requires Genealogy(t) && exists q :: q in t.proposals && q.proposalId == p.proposalId
    ensures var found := FindLast(HasProposalId(p.proposalId), t.proposals);
      found.Present? && (p.proposalDigest == ProposalDigest(p) ==> (found.row.proposalDigest == p.proposalDigest <==> p in t.proposals))
  {
    hide EvaluationChains, OutcomeAccepted, FindLast;
    var found := FindLast(HasProposalId(p.proposalId), t.proposals);
    var q :| q in t.proposals && q.proposalId == p.proposalId;
    assert HasProposalId(p.proposalId)(q);
    assert ProposalIntact(found.row);
    if p in t.proposals { DistinctRows(ProposalRowId, t.proposals, p, found.row); }
    if p.proposalDigest == ProposalDigest(p) && found.row.proposalDigest == p.proposalDigest { SameDigestSameProposal(p, found.row); }
  }

  lemma SameDigestSameProposal(p: Proposal, q: Proposal)
    requires p.proposalDigest == ProposalDigest(p) && q.proposalDigest == ProposalDigest(q) && p.proposalDigest == q.proposalDigest
    ensures p == q
  {
    assert p.(proposalDigest := Zero) == q.(proposalDigest := Zero);
    assert p == p.(proposalDigest := Zero).(proposalDigest := p.proposalDigest);
  }

  /** The evaluation is stored under its identity, for this proposal and with this trace. */
  ghost predicate EvaluationStored(t: Tables, proposalId: string, o: Outcome) {
    var row := EvaluationRow(proposalId, o);
    exists e :: e in t.evaluations && e.Id() == row.Id() && e.proposalId == proposalId && e.TraceDigest() == row.TraceDigest()
  }

  lemma StoredEvaluation(t: Tables, proposalId: string, o: Outcome)
    requires Distinct(EvaluationRowId, t.evaluations)
    ensures var row := EvaluationRow(proposalId, o);
      var found := FindLast(HasEvaluationId(row.Id()), t.evaluations);
      EvaluationStored(t, proposalId, o) <==> found.Present? && found.row.proposalId == proposalId && found.row.TraceDigest() == row.TraceDigest()
  {
    hide FindLast;
    var row := EvaluationRow(proposalId, o);
    var found := FindLast(HasEvaluationId(row.Id()), t.evaluations);
    if EvaluationStored(t, proposalId, o) {
      var e :| e in t.evaluations && e.Id() == row.Id() && e.proposalId == proposalId && e.TraceDigest() == row.TraceDigest();
      assert HasEvaluationId(row.Id())(e);
      DistinctRows(EvaluationRowId, t.evaluations, e, found.row);
    }
  }

  lemma FirstIntact(p: Proposal, s: EvaluationSnapshot, o: Outcome)
    requires FirstAccepted(p, s, o)
    ensures p.proposalDigest == ProposalDigest(p)
  {
    hide Traces.SnapshotAccepted, OutcomeAccepted, PolicyDigest, ActionDigest;
  }

  /** A submission whose proposal identity is stored writes nothing: it is replayed when exactly
      this proposal and this evaluation are stored, and is a conflict otherwise. */
  lemma StoredProposalAnswersExactly(w: World, p: Proposal, s: EvaluationSnapshot, o: Outcome)
    requires Reachable(w) && FirstAccepted(p, s, o) && exists q :: q in w.tables.proposals && q.proposalId == p.proposalId
    ensures var t := w.tables;
      Submitted(t, p, s, o) ==
        Tx(t, if p in t.proposals && EvaluationStored(t, p.proposalId, o) then Replayed(EvaluationRow(p.proposalId, o).Id()) else Conflicting)
  {
    hide Inv, FirstAccepted, ExecutionRows, Versions, DecisionRows, ExclusionRows, ReportRows, EffectsAsked, OutcomeAccepted, ProposalIntact,
      EvaluationChains, FindLast, ProposalAllowed, EvaluationAllowed, Reachable, EvaluationStored, ProposalDigest;
    ReachableKept(w);
    KeptTables(w);
    FirstIntact(p, s, o);
    StoredProposal(w.tables, p);
    StoredEvaluation(w.tables, p.proposalId, o);
  }

  /** A re-evaluation whose identity is stored writes nothing either: it is replayed when the stored
      trace is its own, and is a conflict otherwise. */
  lemma StoredEvaluationAnswersExactly(w: World, s: EvaluationSnapshot, o: Outcome, e: EvaluationRow)
    requires Reachable(w) && NextAccepted(s, o) && e in w.tables.evaluations && e.Id() == EvaluationRow(s.proposal.proposalId, o).Id()
    ensures var row := EvaluationRow(s.proposal.proposalId, o);
      ReEvaluated(w.tables, s, o) == Tx(w.tables, if e.TraceDigest() == row.TraceDigest() then Replayed(e.Id()) else Conflicting)
  {
    hide Inv, NextAccepted, ExecutionRows, Versions, DecisionRows, ExclusionRows, ReportRows, EffectsAsked, OutcomeAccepted, ProposalIntact,
      EvaluationChains, FindLast, EvaluationAllowed, Reachable;
    ReachableKept(w);
    KeptTables(w);
    var found := FindLast(HasEvaluationId(e.Id()), w.tables.evaluations);
    assert HasEvaluationId(e.Id())(e);
    DistinctRows(EvaluationRowId, w.tables.evaluations, e, found.row);
  }

  // ----- executions

  /** The receipt is the only one under the key, and there is none of another decision under it. */
  ghost predicate KeyIsItsOwn(t: Tables, key: string, r: Receipt) { forall q | q in t.receipts && q.idempotencyKey == key :: q == r }

  lemma KnownReceipt(t: Tables, r: Receipt, key: string, decisionId: string)
    requires ExecutionRows(t) && r in t.receipts && r.status == Observed
    requires r.idempotencyKey == key || r.authority.decisionId == decisionId
    ensures r in Filter(ReceiptFor(key, decisionId), t.receipts)
    ensures KeyIsItsOwn(t, key, r) && r.authority.decisionId == decisionId ==> Filter(ReceiptFor(key, decisionId), t.receipts) == [r]
    ensures !KeyIsItsOwn(t, key, r) ==> |Filter(ReceiptFor(key, decisionId), t.receipts)| > 1
  {
    hide ExecutionRows, Filter;
    FilterMembers(ReceiptFor(key, decisionId), t.receipts);
    var known := Filter(ReceiptFor(key, decisionId), t.receipts);
    if !KeyIsItsOwn(t, key, r) {
      var q :| q in t.receipts && q.idempotencyKey == key && q != r;
      assert q in known && r in known;
    } else if r.authority.decisionId == decisionId {
      OnlyReceipt(t, r, key, decisionId);
    }
  }

  lemma OnlyReceipt(t: Tables, r: Receipt, key: string, decisionId: string)
    requires ExecutionRows(t) && r in t.receipts && r.status == Observed && r.authority.decisionId == decisionId && KeyIsItsOwn(t, key, r)
    ensures Filter(ReceiptFor(key, decisionId), t.receipts) == [r]
  {
    hide ExecutionRows, SameEffect, Paired, Filter;
    var a, e := ReceiptHasEffect(t, r);
    assert HasEffect(t, decisionId);
    ExecutionsCorrespond(t, decisionId);
    EffectsUnique(t);
    var k :| 0 <= k < |t.receipts| && t.receipts[k] == r;
    forall i | 0 <= i < |t.receipts| && i != k ensures !ReceiptFor(key, decisionId)(t.receipts[i]) {
      assert t.receipts[i] in t.receipts && ReceiptIdempotency(t.receipts[i]) != ReceiptIdempotency(t.receipts[k]);
    }
    FilterOnly(ReceiptFor(key, decisionId), t.receipts, k);
  }

  /** A command for a decision that was executed, or under the key of an observed receipt, writes
      nothing: the stored receipt is its answer when decision and executor are those of the receipt
      and no other receipt stands under its key; otherwise it is refused. */
  lemma StoredReceiptAnswersExactly(w: World, self: string, c: Command, r: Receipt, x: Draws, fault: Fault)
    requires Reachable(w) && r in w.tables.receipts && r.status == Observed
    requires c.idempotencyKey == r.idempotencyKey || c.decisionId == r.authority.decisionId
    ensures var t := w.tables;
      var same := c.executorId == self && c.executorId == r.executorId && c.decisionId == r.authority.decisionId
                  && KeyIsItsOwn(t, c.idempotencyKey, r);
      Executed(t, self, c, x, fault) == ExecuteTx(t, Receipted(if same then Replayed(r) else Refused))
  {
    hide Inv, ExecutionRows, Authorized, AuthorizedExecution, ReceiptDigest, Filter, Reachable, KeyIsItsOwn;
    ReachableKept(w);
    KeptTables(w);
    KnownReceipt(w.tables, r, c.idempotencyKey, c.decisionId);
    ReceiptDigestKept(w.tables, r);
  }

  // ----- consequence reports

  /** The observation is well formed. */
  predicate Observable(o: Observation) { ReadText(o.actualText).Some? && o.number > 0 && o.reportedBy != "" && o.idempotencyKey != "" }

  /** An observation under the key of a stored report writes nothing: it gets the report when
      receipt, number, reporter and actual document are the stored ones, and is a conflict otherwise;
      an ill-formed one is refused. */
  lemma StoredObservationAnswersExactly(w: World, o: Observation, c: ConsequenceReport, id: string)
    requires Reachable(w) && c in w.tables.reports && c.idempotencyKey == o.idempotencyKey
    ensures var t := w.tables;
      var same := Observable(o) && c.receiptId == o.receiptId && c.observationNumber == o.number && c.reportedBy == o.reportedBy
                  && c.actualText == PlainJson(ReadText(o.actualText).value);
      Reported(t, o, id) == Tx(t, if same then Replayed(c) else if Observable(o) then Conflicting else Refused)
  {
    hide Inv, ExecutionRows, Versions, DecisionRows, ExclusionRows, Genealogy, EffectsAsked, FindLast, ReadText, PlainJson, Rounded, ReportFor,
      ReportAllowed, Reportable, ReportDigest, Measures, ReportedOn, Reachable;
    ReachableKept(w);
    KeptTables(w);
    var t := w.tables;
    assert ReportKeyed(o.idempotencyKey)(c);
    assert ReportStored(t, c);
    DistinctRows(ReportIdempotency, t.reports, c, FindLast(ReportKeyed(o.idempotencyKey), t.reports).row);
  }

  // ----- reviews and decisions

  /** The row at i is the last finalized evaluation of the proposal. */
  ghost predicate LatestFinalizedAt(t: Tables, proposalId: string, i: nat) {
    && i < |t.evaluations| && t.evaluations[i].outcome.Finalized? && t.evaluations[i].proposalId == proposalId
    && forall j | i < j < |t.evaluations| :: !(t.evaluations[j].outcome.Finalized? && t.evaluations[j].proposalId == proposalId)
  }

  /** The request is about the last finalized evaluation of its proposal. */
  ghost predicate AboutLatest(t: Tables, q: DecisionRequest, i: nat) {
    LatestFinalizedAt(t, q.proposalId, i) && t.evaluations[i].Id() == q.evaluationId && t.evaluations[i].TraceDigest() == q.traceDigest
  }

  lemma {:induction false} FoundAt<T>(p: T -> bool, s: seq<T>) returns (i: nat)
    requires FindLast(p, s).Present?
    ensures i < |s| && s[i] == FindLast(p, s).row && p(s[i]) && forall j | i < j < |s| :: !p(s[j])
  {
    if p(s[|s| - 1]) {
      i := |s| - 1;
    } else {
      i := FoundAt(p, s[..|s| - 1]);
    }
  }

  lemma LatestIsFound(t: Tables, proposalId: string, i: nat)
    requires LatestFinalizedAt(t, proposalId, i)
    ensures FindLast(FinalizedOf(proposalId), t.evaluations) == Present(t.evaluations[i])
  {
    hide FindLast;
    var f := FinalizedOf(proposalId);
    assert f(t.evaluations[i]) && t.evaluations[i] in t.evaluations;
    var k := FoundAt(f, t.evaluations);
    assert k == i;
  }

  lemma ProposalFound(t: Tables, p: Proposal)
    requires Genealogy(t) && p in t.proposals
    ensures FindLast(HasProposalId(p.proposalId), t.proposals) == Present(p)
  {
    hide FindLast, OutcomeAccepted, EvaluationChains, ProposalIntact;
    assert HasProposalId(p.proposalId)(p);
    DistinctRows(ProposalRowId, t.proposals, p, FindLast(HasProposalId(p.proposalId), t.proposals).row);
  }

  lemma EvaluationFound(t: Tables, e: EvaluationRow)
    requires Genealogy(t) && e in t.evaluations
    ensures FindLast(HasEvaluationId(e.Id()), t.evaluations) == Present(e)
  {
    hide FindLast, OutcomeAccepted, EvaluationChains, ProposalIntact;
    assert HasEvaluationId(e.Id())(e);
    DistinctRows(EvaluationRowId, t.evaluations, e, FindLast(HasEvaluationId(e.Id()), t.evaluations).row);
  }

  /** A request passes the review exactly when its proposal is stored, it is about the last finalized
      evaluation of that proposal with its trace, and it asks for an exclusion only with a rejection. */
  lemma ReviewedExactly(w: World, q: DecisionRequest, p: Proposal)
    requires Reachable(w)
    ensures Reviewed(w.tables, q) == Some(p) <==>
      p in w.tables.proposals && p.proposalId == q.proposalId && (q.exclude ==> q.decision == Reject) && exists i :: AboutLatest(w.tables, q, i)
  {
    hide Inv, ExecutionRows, Versions, DecisionRows, ExclusionRows, ReportRows, EffectsAsked, OutcomeAccepted, ProposalIntact, EvaluationChains,
      FindLast, Reachable, LatestFinalizedAt;
    ReachableKept(w);
    KeptTables(w);
    var t := w.tables;
    if Reviewed(t, q) == Some(p) {
      var i := ReviewedAt(t, q);
      assert AboutLatest(t, q, i);
    }
    if p in t.proposals && p.proposalId == q.proposalId && (q.exclude ==> q.decision == Reject) && exists i :: AboutLatest(t, q, i) {
      var i :| AboutLatest(t, q, i);
      AboutIsReviewed(t, q, p, i);
    }
  }

  lemma ReviewedAt(t: Tables, q: DecisionRequest) returns (i: nat)
    requires Reviewed(t, q).Some?
    ensures AboutLatest(t, q, i)
  {
    hide OutcomeAccepted, FindLast;
    i := FoundAt(FinalizedOf(q.proposalId), t.evaluations);
  }

  lemma AboutIsReviewed(t: Tables, q: DecisionRequest, p: Proposal, i: nat)
    requires Genealogy(t) && p in t.proposals && p.proposalId == q.proposalId && (q.exclude ==> q.decision == Reject) && AboutLatest(t, q, i)
    ensures Reviewed(t, q) == Some(p)
  {
    hide OutcomeAccepted, ProposalIntact, EvaluationChains, FindLast;
    var e := t.evaluations[i];
    ProposalFound(t, p);
    EvaluationFound(t, e);
    LatestIsFound(t, q.proposalId, i);
    assert OutcomeAccepted(e.outcome);
  }

  ghost predicate FreshDecision(t: Tables, q: DecisionRequest) {
    forall d | d in t.decisions :: d.idempotencyKey != q.idempotencyKey && d.proposalId != q.proposalId
  }

  ghost predicate DecisionIdFree(t: Tables, id: string) { forall d | d in t.decisions :: d.decisionId != id }
  ghost predicate ExclusionIdFree(t: Tables, id: string) { forall x | x in t.exclusions :: x.exclusionId != id }

  lemma DecisionFits(t: Tables, q: DecisionRequest, d: DecisionRecord, i: nat)
    requires Genealogy(t) && DecisionRows(t) && AboutLatest(t, q, i) && FreshDecision(t, q)
    requires SameRequest(d, q) && d.idempotencyKey == q.idempotencyKey
    ensures DecisionAllowed(t, d) <==> DecisionIdFree(t, d.decisionId)
  {
    hide OutcomeAccepted, ProposalIntact, EvaluationChains, DecisionDigest;
    var e := t.evaluations[i];
    assert Finalizes(e, d.proposalId, d.evaluationId, d.traceDigest);
    forall c | c in t.decisions ensures c.evaluationId != d.evaluationId {
      assert Decides(t, c);
      var f :| f in t.evaluations && Finalizes(f, c.proposalId, c.evaluationId, c.traceDigest);
      if c.evaluationId == d.evaluationId { DistinctRows(EvaluationRowId, t.evaluations, e, f); }
    }
  }

  lemma KeysApart(a: string, b: string)
    ensures ExclusionKeyOf(a) == ExclusionKeyOf(b) ==> a == b
  {
    assert |"exclude:"| == 8 && ExclusionKeyOf(a)[8..] == a && ExclusionKeyOf(b)[8..] == b;
  }

  lemma ExclusionFits(t: Tables, q: DecisionRequest, d: DecisionRecord, x: ExclusionRef, i: nat)
    requires ExclusionRows(t) && AboutLatest(t, q, i) && FreshDecision(t, q) && DecisionIdFree(t, d.decisionId)
    requires SameRequest(d, q) && q.decision == Reject && RejectedBy(x, d) && d.idempotencyKey == q.idempotencyKey && x.sourceDecisionValue == Reject
    ensures ExclusionAllowed(t.(decisions := t.decisions + [d]), x) <==> ExclusionIdFree(t, x.exclusionId)
  {
    hide ExclusionDigest, Targets;
    var u := t.(decisions := t.decisions + [d]);
    assert d in u.decisions && t.evaluations[i] in u.evaluations;
    forall y | y in t.exclusions ensures y.idempotencyKey != x.idempotencyKey && y.sourceDecisionId != x.sourceDecisionId {
      assert ExclusionStored(t, y);
      var c :| c in t.decisions && RejectedBy(y, c);
      KeysApart(c.idempotencyKey, d.idempotencyKey);
    }
  }

  /** A reviewed request under a new key for an undecided proposal is committed exactly when the drawn
      identities of the decision and of the exclusion it asks for are unused; otherwise a constraint
      refuses it and nothing is written. */
  lemma DecisionCommitsExactly(w: World, q: DecisionRequest, p: Proposal, decisionId: string, exclusionId: string)
    requires Reachable(w) && Reviewed(w.tables, q) == Some(p) && FreshDecision(w.tables, q)
    ensures var (t, x) := (w.tables, Decided(w.tables, q, p, decisionId, exclusionId));
      if DecisionIdFree(t, decisionId) && (q.exclude ==> ExclusionIdFree(t, exclusionId)) then x.reply.Written? else x == Tx(t, Violated)
  {
    hide Inv, ExecutionRows, Versions, DecisionRows, ExclusionRows, ReportRows, EffectsAsked, Genealogy, Reachable, AboutLatest, FindLast,
      DecisionAllowed, ExclusionAllowed, DecisionFor, ExclusionFor, DecisionReplay, RejectedBy, Targets, DecisionIdFree, ExclusionIdFree, SameRequest;
    ReachableKept(w);
    KeptTables(w);
    ReviewedExactly(w, q, p);
    var t := w.tables;
    var i :| AboutLatest(t, q, i);
    var d := DecisionFor(q, decisionId);
    RequestFacts(q, decisionId);
    DecisionFits(t, q, d, i);
    if q.exclude && DecisionIdFree(t, decisionId) { AskedExclusionFits(t, q, p, d, exclusionId, i); }
  }

  lemma AskedExclusionFits(t: Tables, q: DecisionRequest, p: Proposal, d: DecisionRecord, exclusionId: string, i: nat)
    requires ExclusionRows(t) && AboutLatest(t, q, i) && FreshDecision(t, q) && DecisionIdFree(t, d.decisionId)
    requires SameRequest(d, q) && q.decision == Reject && d.idempotencyKey == q.idempotencyKey
    ensures ExclusionAllowed(t.(decisions := t.decisions + [d]), ExclusionFor(p, d, exclusionId)) <==> ExclusionIdFree(t, exclusionId)
  {
    hide ExclusionRows, ExclusionFor, AboutLatest, ExclusionAllowed, RejectedBy, Targets, FreshDecision;
    ExclusionFacts(p, d, exclusionId);
    ExclusionFits(t, q, d, ExclusionFor(p, d, exclusionId), i);
  }

  /** A decided proposal is not decided again: without a stored key the request is refused. */
  lemma DecidedOnce(w: World, q: DecisionRequest, p: Proposal, decisionId: string, exclusionId: string)
    requires (forall d | d in w.tables.decisions :: d.idempotencyKey != q.idempotencyKey) && exists d :: d in w.tables.decisions && d.proposalId == q.proposalId
    ensures Decided(w.tables, q, p, decisionId, exclusionId) == Tx(w.tables, Refused)
  {
    hide FindLast;
    var d :| d in w.tables.decisions && d.proposalId == q.proposalId;
    assert DecidesProposal(q.proposalId)(d);
  }
}
