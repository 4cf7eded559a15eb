/** What every step of the ledger keeps. */
module LedgerInvariant {
  import opened Divergence
  import opened Gate
  import opened Json
  import opened JsonRoundTrip
  import opened JsonText
  import opened LedgerRuns
  import opened LedgerSteps
  import opened LedgerTables
  import opened Models
  import opened Sequences
  import opened Traces

  // ----- row keys

  function EffectRowId(e: Effect): string { e.effectId }
  function EffectIdempotency(e: Effect): string { e.idempotencyKey }
  function EffectDecision(e: Effect): string { e.authority.decisionId }
  function AttemptRowId(a: Attempt): string { a.attemptId }
  function ReceiptRowId(r: Receipt): string { r.receiptId }
  function ReceiptIdempotency(r: Receipt): string { r.idempotencyKey }
  function EvaluationRowId(e: EvaluationRow): string { e.Id() }
  function ProposalRowId(p: Proposal): string { p.proposalId }
  function DecisionRowId(d: DecisionRecord): string { d.decisionId }
  function DecisionIdempotency(d: DecisionRecord): string { d.idempotencyKey }
  function DecisionProposal(d: DecisionRecord): string { d.proposalId }
  function DecisionEvaluation(d: DecisionRecord): string { d.evaluationId }
  function ReportRowId(c: ConsequenceReport): string { c.consequenceId }
  function ReportIdempotency(c: ConsequenceReport): string { c.idempotencyKey }

  // ----- executions

  /** Attempt and receipt of one execution, inserted together. */
  ghost predicate Paired(a: Attempt, r: Receipt) {
    && Repeats(r, a) && r.idempotencyKey == a.idempotencyKey && r.receiptDigest == ReceiptDigest(r)
    && AttemptShape(a) && r.after == a.after && r.version == a.version
  }

  ghost predicate AlignedRows(attempts: seq<Attempt>, receipts: seq<Receipt>) {
    |attempts| == |receipts| && forall i | 0 <= i < |attempts| :: Paired(attempts[i], receipts[i])
  }

  ghost predicate UniqueExecutions(effects: seq<Effect>, attempts: seq<Attempt>, receipts: seq<Receipt>) {
    && Distinct(EffectRowId, effects) && Distinct(EffectIdempotency, effects) && Distinct(EffectDecision, effects)
    && Distinct(AttemptRowId, attempts)
    && Distinct(ReceiptRowId, receipts) && Distinct(ReceiptIdempotency, receipts)
  }

  ghost predicate SameEffect(a: Attempt, e: Effect) {
    a.status == Observed && Observes(a, e) && a.idempotencyKey == e.idempotencyKey && a.requestedValue == e.value
  }

  /** Observed attempts and effects stand in one-to-one correspondence, and a failed attempt's
      decision has no effect. */
  ghost predicate EffectsObserved(effects: seq<Effect>, attempts: seq<Attempt>) {
    && (forall a | a in attempts && a.status == Observed :: exists e :: e in effects && SameEffect(a, e))
    && (forall e | e in effects :: exists a :: a in attempts && SameEffect(a, e))
    && (forall a, e | a in attempts && a.status == Error && e in effects :: e.authority.decisionId != a.authority.decisionId)
  }

  ghost predicate ExecutionRows(t: Tables) {
    && AlignedRows(t.attempts, t.receipts)
    && UniqueExecutions(t.effects, t.attempts, t.receipts)
    && EffectsObserved(t.effects, t.attempts)
    && (forall a | a in t.attempts :: ApprovalHeld(t, a.authority) && a.outcomeDigest == OutcomeDigest(a) && a.attemptDigest == AttemptDigest(a))
  }

  lemma AlignedSnoc(attempts: seq<Attempt>, receipts: seq<Receipt>, a: Attempt, r: Receipt)
    requires AlignedRows(attempts, receipts) && Paired(a, r)
    ensures AlignedRows(attempts + [a], receipts + [r])
  {
    hide Paired;
  }

  lemma ReceiptPairs(a: Attempt, id: string)
    requires AttemptShape(a)
    ensures Paired(a, ReceiptOf(a, id))
  {}

  lemma ObservedSnoc(effects: seq<Effect>, attempts: seq<Attempt>, e: Effect, a: Attempt)
    requires EffectsObserved(effects, attempts) && SameEffect(a, e)
    requires forall b | b in attempts :: b.authority.decisionId != e.authority.decisionId
    ensures EffectsObserved(effects + [e], attempts + [a])
  {
    hide SameEffect;
    assert e in effects + [e] && a in attempts + [a];
    assert a.status == Observed by { ObservedStatus(a, e); }
  }

  lemma ObservedStatus(a: Attempt, e: Effect)
    requires SameEffect(a, e)
    ensures a.status == Observed && a.effectId == Some(e.effectId) && a.authority == e.authority
  {}

  lemma FailedSnoc(effects: seq<Effect>, attempts: seq<Attempt>, a: Attempt)
    requires EffectsObserved(effects, attempts) && a.status == Error
    requires forall e | e in effects :: e.authority.decisionId != a.authority.decisionId
    ensures EffectsObserved(effects, attempts + [a])
  {
    hide SameEffect;
  }

  lemma UniqueSnoc(t: Tables, u: Tables, a: Attempt, r: Receipt)
    requires UniqueExecutions(u.effects, t.attempts, t.receipts)
    requires AttemptAllowed(u, a) && u.attempts == t.attempts && u.receipts == t.receipts
    requires ReceiptAllowed(u.(attempts := u.attempts + [a]), r)
    ensures UniqueExecutions(u.effects, t.attempts + [a], t.receipts + [r])
  {
    hide ApprovalHeld, ActionBound, TargetBound, AttemptShape, Observes, Repeats;
    DistinctSnoc(AttemptRowId, t.attempts, a);
    DistinctSnoc(ReceiptRowId, t.receipts, r);
    DistinctSnoc(ReceiptIdempotency, t.receipts, r);
  }

  lemma EffectSnoc(t: Tables, e: Effect)
    requires UniqueExecutions(t.effects, t.attempts, t.receipts) && EffectAllowed(t, e)
    ensures UniqueExecutions(t.effects + [e], t.attempts, t.receipts)
  {
    hide ApprovalHeld, ActionBound, TargetBound, VersionLineage, Precedes;
    DistinctSnoc(EffectRowId, t.effects, e);
    DistinctSnoc(EffectIdempotency, t.effects, e);
    DistinctSnoc(EffectDecision, t.effects, e);
  }

  /** What a committed execution appended. */
  lemma ClosedRows(begin: Tables, t: Tables, a: Attempt, id: string)
    requires Closed(begin, t, a, id).reply.Written?
    ensures AttemptAllowed(t, a) && ReceiptAllowed(t.(attempts := t.attempts + [a]), ReceiptOf(a, id))
    ensures Closed(begin, t, a, id).tables == t.(attempts := t.attempts + [a], receipts := t.receipts + [ReceiptOf(a, id)])
    ensures AttemptShape(a) && ApprovalHeld(t, a.authority)
  {
    hide ReceiptAllowed, ReceiptOf, ActionBound, TargetBound, Observes, AttemptShape;
  }

  lemma ApprovedInLarger(t: Tables, u: Tables, a: Authority)
    requires ApprovalHeld(t, a) && t.decisions <= u.decisions
    ensures ApprovalHeld(u, a)
  {
    var d :| d in t.decisions && d.decision == Approve && AuthorityOf(d) == a;
    assert d in u.decisions;
  }

  lemma SameExecutions(t: Tables, u: Tables)
    requires ExecutionRows(t) && t.decisions <= u.decisions
    requires u.effects == t.effects && u.attempts == t.attempts && u.receipts == t.receipts
    ensures ExecutionRows(u)
  {
    hide AlignedRows, UniqueExecutions, EffectsObserved, ApprovalHeld, OutcomeDigest, AttemptDigest;
    forall a | a in u.attempts ensures ApprovalHeld(u, a.authority) { ApprovedInLarger(t, u, a.authority); }
  }

  lemma ErrorKeepsExecutions(t: Tables, f: FailedEffect, w: Draws)
    requires ExecutionRows(t)
    ensures ExecutionRows(ErrorRecorded(t, f, w).tables)
  {
    hide AlignedRows, UniqueExecutions, EffectsObserved, Closed, ApprovalHeld, OutcomeDigest, AttemptDigest, ReceiptOf, ReceiptDigest;
    var a := ErrorAttempt(f, w);
    var x := ErrorRecorded(t, f, w);
    if x.reply.Written? {
      ClosedRows(t, t, a, w.receiptId);
      ErrorFacts(f, w);
      ReceiptPairs(a, w.receiptId);
      AlignedSnoc(t.attempts, t.receipts, a, ReceiptOf(a, w.receiptId));
      UniqueSnoc(t, t, a, ReceiptOf(a, w.receiptId));
      FailedSnoc(t.effects, t.attempts, a);
      forall b | b in x.tables.attempts ensures ApprovalHeld(x.tables, b.authority) { ApprovedInLarger(t, x.tables, b.authority); }
    } else {
      ClosedRefusal(t, t, a, w.receiptId);
    }
  }

  lemma ClosedRefusal(begin: Tables, t: Tables, a: Attempt, id: string)
    ensures !Closed(begin, t, a, id).reply.Written? ==> Closed(begin, t, a, id) == Tx(begin, Violated)
  {
    hide AttemptAllowed, ReceiptAllowed, ReceiptOf;
  }

  lemma ErrorFacts(f: FailedEffect, w: Draws)
    ensures var a := ErrorAttempt(f, w);
      && a.status == Error && a.authority == AuthorityOf(f.decision) && a.idempotencyKey == f.command.idempotencyKey
      && a.outcomeDigest == OutcomeDigest(a) && a.attemptDigest == AttemptDigest(a) && a.executorId == f.command.executorId
  {}

  lemma ObservedFacts(e: Effect, w: Draws)
    ensures var a := ObservedAttempt(e, w);
      && a.status == Observed && a.authority == e.authority && SameEffect(a, e)
      && a.outcomeDigest == OutcomeDigest(a) && a.attemptDigest == AttemptDigest(a)
  {}

  /** No stored execution carries the decision or the key, so neither does an attempt. */
  lemma UnknownDecision(t: Tables, key: string, decisionId: string)
    requires AlignedRows(t.attempts, t.receipts) && Filter(ReceiptFor(key, decisionId), t.receipts) == []
    ensures forall a | a in t.attempts :: a.authority.decisionId != decisionId && a.idempotencyKey != key
  {
    hide ReceiptDigest, AttemptShape;
    FilterEmpty(ReceiptFor(key, decisionId), t.receipts);
    forall a | a in t.attempts ensures a.authority.decisionId != decisionId && a.idempotencyKey != key {
      var i :| 0 <= i < |t.attempts| && t.attempts[i] == a;
      assert Paired(a, t.receipts[i]) && t.receipts[i] in t.receipts;
    }
  }

  /** The one way in which the effect transaction writes. */
  lemma ExecuteWrites(t: Tables, self: string, c: Command, w: Draws, fault: Fault)
    returns (d: DecisionRecord, p: Proposal, plan: EffectPlan, e: Effect)
    requires Executed(t, self, c, w, fault).answer.Receipted? && Executed(t, self, c, w, fault).answer.reply.Written?
    ensures Filter(ReceiptFor(c.idempotencyKey, c.decisionId), t.receipts) == []
    ensures Authorized(t, c) == Some((d, p)) && ValidateEffect(p) == Some(plan)
    ensures e == EffectFor(t, c, d, p, plan, w.effectId) && EffectAllowed(t, e)
    ensures Closed(t, t.(effects := t.effects + [e]), ObservedAttempt(e, w), w.receiptId)
         == Tx(Executed(t, self, c, w, fault).tables, Executed(t, self, c, w, fault).answer.reply)
  {
    hide Authorized, ValidateEffect, EffectAllowed, Closed, EffectFor, ObservedAttempt, Filter;
    d, p := Authorized(t, c).value.0, Authorized(t, c).value.1;
    plan := ValidateEffect(p).value;
    e := EffectFor(t, c, d, p, plan, w.effectId);
  }

  lemma ExecuteUnchanged(t: Tables, self: string, c: Command, w: Draws, fault: Fault)
    requires !(Executed(t, self, c, w, fault).answer.Receipted? && Executed(t, self, c, w, fault).answer.reply.Written?)
    ensures Executed(t, self, c, w, fault).tables == t
  {
    hide Authorized, ValidateEffect, EffectAllowed, Closed, EffectFor, ObservedAttempt, Filter;
    if Authorized(t, c).Some? && ValidateEffect(Authorized(t, c).value.1).Some? {
      var (d, p) := Authorized(t, c).value;
      var e := EffectFor(t, c, d, p, ValidateEffect(p).value, w.effectId);
      ClosedRefusal(t, t.(effects := t.effects + [e]), ObservedAttempt(e, w), w.receiptId);
    }
  }

  lemma AuthorizedFacts(t: Tables, c: Command)
    requires Authorized(t, c).Some?
    ensures var (d, p) := Authorized(t, c).value;
      && d in t.decisions && d.decisionId == c.decisionId && d.decision == Approve && d.decisionDigest == DecisionDigest(d)
      && p in t.proposals && p.proposalId == d.proposalId && p.actionDigest == ActionDigest(p)
  {
    hide OutcomeAccepted, ProposalDigest, ActionDigest;
  }

  lemma EffectForFacts(t: Tables, c: Command, d: DecisionRecord, p: Proposal, plan: EffectPlan, id: string)
    ensures var e := EffectFor(t, c, d, p, plan, id);
      && e.effectId == id && e.authority == AuthorityOf(d) && e.actionDigest == p.actionDigest && e.targetKey == p.targetKey
      && e.effectKey == plan.key && e.value == plan.value && e.digest == EffectDigest(e)
      && e.executorId == c.executorId && e.idempotencyKey == c.idempotencyKey
  {
    hide LatestEffect;
  }

  lemma ExecuteKeepsExecutions(t: Tables, self: string, c: Command, w: Draws, fault: Fault)
    requires ExecutionRows(t)
    ensures ExecutionRows(Executed(t, self, c, w, fault).tables)
  {
    hide AlignedRows, UniqueExecutions, EffectsObserved, Closed, ApprovalHeld, OutcomeDigest, AttemptDigest, ReceiptOf, ReceiptDigest,
      Authorized, ValidateEffect, EffectAllowed, EffectFor, ObservedAttempt, Executed, SameEffect, AuthorityOf;
    var x := Executed(t, self, c, w, fault);
    if x.answer.Receipted? && x.answer.reply.Written? {
      var d, p, plan, e := ExecuteWrites(t, self, c, w, fault);
      AuthorizedFacts(t, c);
      EffectForFacts(t, c, d, p, plan, w.effectId);
      ObservedCommit(t, c, d, e, w);
    } else {
      ExecuteUnchanged(t, self, c, w, fault);
    }
  }

  lemma ObservedCommit(t: Tables, c: Command, d: DecisionRecord, e: Effect, w: Draws)
    requires ExecutionRows(t) && EffectAllowed(t, e) && Filter(ReceiptFor(c.idempotencyKey, c.decisionId), t.receipts) == []
    requires e.authority == AuthorityOf(d) && d.decisionId == c.decisionId
    requires Closed(t, t.(effects := t.effects + [e]), ObservedAttempt(e, w), w.receiptId).reply.Written?
    ensures ExecutionRows(Closed(t, t.(effects := t.effects + [e]), ObservedAttempt(e, w), w.receiptId).tables)
  {
    hide AlignedRows, UniqueExecutions, EffectsObserved, Closed, ApprovalHeld, OutcomeDigest, AttemptDigest, ReceiptOf, ReceiptDigest,
      EffectAllowed, ObservedAttempt, SameEffect, AttemptAllowed, ReceiptAllowed;
    var u, a := t.(effects := t.effects + [e]), ObservedAttempt(e, w);
    var r := ReceiptOf(a, w.receiptId);
    ClosedRows(t, u, a, w.receiptId);
    ObservedFacts(e, w);
    ReceiptPairs(a, w.receiptId);
    AlignedSnoc(t.attempts, t.receipts, a, r);
    EffectSnoc(t, e);
    UniqueSnoc(t, u, a, r);
    UnknownDecision(t, c.idempotencyKey, c.decisionId);
    ObservedSnoc(t.effects, t.attempts, e, a);
    var v := Closed(t, u, a, w.receiptId).tables;
    forall b | b in v.attempts ensures ApprovalHeld(v, b.authority) {
      if b == a { ApprovedInLarger(u, v, b.authority); } else { ApprovedInLarger(t, v, b.authority); }
    }
  }

  // ----- version chains

  /** Versions count from one; each row names identity, version and digest of the row before it,
      and the first starts from the zero digest. */
  ghost predicate EffectChain(es: seq<Effect>) {
    forall i | 0 <= i < |es| :: VersionLink(es, i)
  }

  ghost predicate VersionLink(es: seq<Effect>, i: nat)
    requires i < |es|
  {
    && es[i].version == i + 1 && es[i].digest == EffectDigest(es[i])
    && (if i == 0 then es[i].priorId == None && es[i].priorVersion == None && es[i].before == Zero
        else es[i].priorId == Some(es[i - 1].effectId) && es[i].priorVersion == Some(i) && es[i].before == es[i - 1].digest)
  }

  ghost predicate Versions(effects: seq<Effect>) {
    forall k :: EffectChain(Filter(HasEffectKey(k), effects))
  }

  /** In a chain the newest version is the last row. */
  lemma {:induction false} NewestOfChain(es: seq<Effect>)
    requires EffectChain(es)
    ensures Newest(es) == if es == [] then Absent else Present(es[|es| - 1])
  {
    hide EffectDigest;
    if es != [] {
      var front := es[..|es| - 1];
      assert EffectChain(front) by { forall i | 0 <= i < |front| ensures VersionLink(front, i) { assert VersionLink(es, i); } }
      NewestOfChain(front);
      assert VersionLink(es, |es| - 1);
      assert front != [] ==> VersionLink(es, |front| - 1);
    }
  }

  /** The next row of a chain, as the executor builds it. */
  lemma AppendVersion(es: seq<Effect>, e: Effect)
    requires EffectChain(es) && e.digest == EffectDigest(e)
    requires es == [] ==> e.version == 1 && e.priorId == None && e.priorVersion == None && e.before == Zero
    requires es != [] ==> (var f := es[|es| - 1];
      e.version == f.version + 1 && e.priorId == Some(f.effectId) && e.priorVersion == Some(f.version) && e.before == f.digest)
    ensures EffectChain(es + [e])
  {
    hide EffectDigest;
    var after := es + [e];
    if es != [] { assert VersionLink(es, |es| - 1); }
    forall i | 0 <= i < |after| ensures VersionLink(after, i) {
      assert i < |es| ==> VersionLink(es, i);
    }
  }

  lemma ChainSnoc(t: Tables, c: Command, d: DecisionRecord, p: Proposal, plan: EffectPlan, id: string)
    requires Versions(t.effects)
    ensures EffectChain(Filter(HasEffectKey(plan.key), t.effects) + [EffectFor(t, c, d, p, plan, id)])
  {
    hide Filter, Newest, EffectDigest, EffectChain;
    var e := EffectFor(t, c, d, p, plan, id);
    var es := Filter(HasEffectKey(plan.key), t.effects);
    assert EffectChain(es);
    NewestOfChain(es);
    EffectForFacts(t, c, d, p, plan, id);
    AppendVersion(es, e);
  }

  lemma ChainGrows(t: Tables, c: Command, d: DecisionRecord, p: Proposal, plan: EffectPlan, id: string)
    requires Versions(t.effects)
    ensures var e := EffectFor(t, c, d, p, plan, id); Versions(t.effects + [e])
  {
    hide Filter, EffectDigest, Newest, EffectChain, EffectFor;
    var e := EffectFor(t, c, d, p, plan, id);
    EffectForFacts(t, c, d, p, plan, id);
    ChainSnoc(t, c, d, p, plan, id);
    forall k ensures EffectChain(Filter(HasEffectKey(k), t.effects + [e])) {
      FilterSnoc(HasEffectKey(k), t.effects, e);
      if k == plan.key {
        assert Filter(HasEffectKey(k), t.effects + [e]) == Filter(HasEffectKey(k), t.effects) + [e];
      } else {
        assert Filter(HasEffectKey(k), t.effects + [e]) == Filter(HasEffectKey(k), t.effects);
        assert EffectChain(Filter(HasEffectKey(k), t.effects));
      }
    }
  }

  lemma ExecuteKeepsVersions(t: Tables, self: string, c: Command, w: Draws, fault: Fault)
    requires Versions(t.effects)
    ensures Versions(Executed(t, self, c, w, fault).tables.effects)
  {
    hide Closed, Authorized, ValidateEffect, EffectAllowed, EffectFor, ObservedAttempt, Executed, Versions, Filter;
    var x := Executed(t, self, c, w, fault);
    if x.answer.Receipted? && x.answer.reply.Written? {
      var d, p, plan, e := ExecuteWrites(t, self, c, w, fault);
      ChainGrows(t, c, d, p, plan, w.effectId);
      ClosedRows(t, t.(effects := t.effects + [e]), ObservedAttempt(e, w), w.receiptId);
    } else {
      ExecuteUnchanged(t, self, c, w, fault);
    }
  }

  // ----- proposals and evaluations

  /** Each evaluation names the one appended before it; only the last may be blocked. */
  ghost predicate EvaluationChain(es: seq<EvaluationRow>) {
    forall i | 0 <= i < |es| :: Link(es, i)
  }

  ghost predicate Link(es: seq<EvaluationRow>, i: nat)
    requires i < |es|
  {
    && es[i].PriorId() == (if i == 0 then None else Some(es[i - 1].Id()))
    && (i < |es| - 1 ==> es[i].outcome.Finalized?)
  }

  ghost predicate EvaluationChains(evaluations: seq<EvaluationRow>) {
    forall id :: EvaluationChain(Filter(OfProposalRow(id), evaluations))
  }

  ghost predicate HasProposal(t: Tables, id: string) { exists p :: p in t.proposals && p.proposalId == id }

  ghost predicate Genealogy(t: Tables) {
    && Distinct(ProposalRowId, t.proposals) && Distinct(EvaluationRowId, t.evaluations)
    && (forall p | p in t.proposals :: ProposalIntact(p))
    && (forall e | e in t.evaluations :: OutcomeAccepted(e.outcome) && HasProposal(t, e.proposalId))
    && EvaluationChains(t.evaluations)
  }

  lemma ChainsSnoc(es: seq<EvaluationRow>, e: EvaluationRow)
    requires EvaluationChains(es)
    requires var before := Filter(OfProposalRow(e.proposalId), es);
      e.PriorId() == (if before == [] then None else Some(before[|before| - 1].Id()))
      && (before != [] ==> before[|before| - 1].outcome.Finalized?)
    ensures EvaluationChains(es + [e])
  {
    hide Filter;
    var before := Filter(OfProposalRow(e.proposalId), es);
    assert EvaluationChain(before);
    forall id ensures EvaluationChain(Filter(OfProposalRow(id), es + [e])) {
      FilterSnoc(OfProposalRow(id), es, e);
      if id == e.proposalId {
        AppendLink(before, e);
        assert Filter(OfProposalRow(id), es + [e]) == before + [e];
      } else {
        assert Filter(OfProposalRow(id), es + [e]) == Filter(OfProposalRow(id), es);
        assert EvaluationChain(Filter(OfProposalRow(id), es));
      }
    }
  }

  lemma AppendLink(before: seq<EvaluationRow>, e: EvaluationRow)
    requires EvaluationChain(before)
    requires e.PriorId() == (if before == [] then None else Some(before[|before| - 1].Id()))
    requires before != [] ==> before[|before| - 1].outcome.Finalized?
    ensures EvaluationChain(before + [e])
  {
    var after := before + [e];
    forall i | 0 <= i < |after| ensures Link(after, i) {
      assert i < |before| ==> Link(before, i);
    }
  }

  /** What appending one evaluation needs. */
  lemma EvaluationAppended(t: Tables, e: EvaluationRow)
    requires Genealogy(t) && EvaluationAllowed(t, e) && OutcomeAccepted(e.outcome)
    requires var before := Filter(OfProposalRow(e.proposalId), t.evaluations);
      e.PriorId() == (if before == [] then None else Some(before[|before| - 1].Id()))
      && (before != [] ==> before[|before| - 1].outcome.Finalized?)
    ensures Genealogy(t.(evaluations := t.evaluations + [e]))
  {
    hide OutcomeAccepted, ProposalIntact, EvaluationChains, Filter;
    DistinctSnoc(EvaluationRowId, t.evaluations, e);
    ChainsSnoc(t.evaluations, e);
    var u := t.(evaluations := t.evaluations + [e]);
    forall f | f in u.evaluations ensures HasProposal(u, f.proposalId) {
      if f in t.evaluations { assert HasProposal(t, f.proposalId); }
    }
  }

  lemma ProposalAppended(t: Tables, p: Proposal)
    requires Genealogy(t) && ProposalAllowed(t, p) && ProposalIntact(p)
    ensures Genealogy(t.(proposals := t.proposals + [p]))
    ensures Filter(OfProposalRow(p.proposalId), t.evaluations) == []
  {
    hide OutcomeAccepted, ProposalIntact, EvaluationChains;
    DistinctSnoc(ProposalRowId, t.proposals, p);
    FilterEmpty(OfProposalRow(p.proposalId), t.evaluations);
    var u := t.(proposals := t.proposals + [p]);
    forall e | e in t.evaluations ensures HasProposal(u, e.proposalId) && e.proposalId != p.proposalId {
      var q :| q in t.proposals && q.proposalId == e.proposalId;
      assert q in u.proposals;
    }
  }

  lemma BindingParts(s: EvaluationSnapshot, o: Outcome)
    requires BindingAccepted(s, o)
    ensures OutcomeAccepted(o) && ProposalIntact(s.proposal) && SnapshotAccepted(s)
  {
    hide SnapshotAccepted, OutcomeAccepted, ActionDigest, ProposalDigest, PolicyDigest;
  }

  lemma SubmitKeepsGenealogy(t: Tables, p: Proposal, s: EvaluationSnapshot, o: Outcome)
    requires Genealogy(t)
    ensures Genealogy(Submitted(t, p, s, o).tables)
  {
    hide Genealogy, BindingAccepted, OutcomeAccepted, ProposalIntact, EvaluationAllowed, ProposalAllowed, Filter;
    var x := Submitted(t, p, s, o);
    if x.reply.Written? {
      var row := EvaluationRow(p.proposalId, o);
      BindingParts(s, o);
      ProposalAppended(t, p);
      EvaluationAppended(t.(proposals := t.proposals + [p]), row);
    }
  }

  /** A blocked row cannot be the prior of anything: its digest is not that of a result. */
  lemma PriorIsFinalized(t: Tables, s: EvaluationSnapshot, o: Outcome, latest: EvaluationRow)
    requires NextAccepted(s, o) && OutcomeAccepted(latest.outcome)
    requires latest.TraceDigest() == s.prior.value.result.traceDigest
    ensures latest.outcome.Finalized?
  {
    hide TraceAccepted, ResultAccepted, ActionDigest, ProposalDigest, PolicyDigest;
  }

  lemma ReEvaluateWrites(t: Tables, s: EvaluationSnapshot, o: Outcome) returns (latest: EvaluationRow)
    requires ReEvaluated(t, s, o).reply.Written?
    ensures NextAccepted(s, o) && EvaluationAllowed(t, EvaluationRow(s.proposal.proposalId, o))
    ensures FindLast(OfProposalRow(s.proposal.proposalId), t.evaluations) == Present(latest)
    ensures latest.Id() == s.prior.value.result.evaluationId && latest.TraceDigest() == s.prior.value.result.traceDigest
    ensures ReEvaluated(t, s, o).tables == t.(evaluations := t.evaluations + [EvaluationRow(s.proposal.proposalId, o)])
  {
    hide BindingAccepted, EvaluationAllowed;
    latest := FindLast(OfProposalRow(s.proposal.proposalId), t.evaluations).row;
  }

  lemma ReEvaluateUnchanged(t: Tables, s: EvaluationSnapshot, o: Outcome)
    requires !ReEvaluated(t, s, o).reply.Written?
    ensures ReEvaluated(t, s, o).tables == t
  {
    hide NextAccepted, EvaluationAllowed;
  }

  lemma NextParts(s: EvaluationSnapshot, o: Outcome)
    requires NextAccepted(s, o)
    ensures OutcomeAccepted(o) && s.prior.Some?
    ensures EvaluationRow("", o).PriorId() == Some(s.prior.value.result.evaluationId)
  {
    hide BindingAccepted, OutcomeAccepted;
    BindingParts(s, o);
  }

  lemma ReEvaluateKeepsGenealogy(t: Tables, s: EvaluationSnapshot, o: Outcome)
    requires Genealogy(t)
    ensures Genealogy(ReEvaluated(t, s, o).tables)
  {
    hide NextAccepted, ReEvaluated, OutcomeAccepted, ProposalIntact, EvaluationAllowed, EvaluationChains, Filter;
    if ReEvaluated(t, s, o).reply.Written? {
      var row := EvaluationRow(s.proposal.proposalId, o);
      var latest := ReEvaluateWrites(t, s, o);
      NextParts(s, o);
      FindLastInFilter(OfProposalRow(s.proposal.proposalId), t.evaluations);
      PriorIsFinalized(t, s, o, latest);
      EvaluationAppended(t, row);
    } else {
      ReEvaluateUnchanged(t, s, o);
    }
  }

  lemma SameGenealogy(t: Tables, u: Tables)
    requires Genealogy(t) && u.proposals == t.proposals && u.evaluations == t.evaluations
    ensures Genealogy(u)
  {
    hide OutcomeAccepted, ProposalIntact, EvaluationChains;
    forall e | e in u.evaluations ensures HasProposal(u, e.proposalId) { assert HasProposal(t, e.proposalId); }
  }

  // ----- decisions and exclusions

  ghost predicate Decides(t: Tables, d: DecisionRecord) {
    exists e :: e in t.evaluations && Finalizes(e, d.proposalId, d.evaluationId, d.traceDigest)
  }

  ghost predicate DecisionRows(t: Tables) {
    && Distinct(DecisionRowId, t.decisions) && Distinct(DecisionIdempotency, t.decisions)
    && Distinct(DecisionProposal, t.decisions) && Distinct(DecisionEvaluation, t.decisions)
    && (forall d | d in t.decisions :: d.decisionDigest == DecisionDigest(d) && Decides(t, d))
  }

  /** An exclusion belongs to a rejecting decision. */
  ghost predicate RejectedBy(x: ExclusionRef, d: DecisionRecord) {
    && d.decision == Reject && d.decisionId == x.sourceDecisionId && d.proposalId == x.sourceProposalId
    && d.evaluationId == x.sourceEvaluationId && d.traceDigest == x.sourceTraceDigest && d.decisionDigest == x.sourceDecisionDigest
    && x.reason == d.rationale && x.idempotencyKey == "exclude:" + d.idempotencyKey
  }

  /** An exclusion names action and target of the proposal it came from. */
  ghost predicate Targets(x: ExclusionRef, p: Proposal) {
    && p.proposalId == x.sourceProposalId && x.actionType == p.actionType && x.actionTypeKey == p.actionTypeKey
    && x.target == p.target && x.targetKey == p.targetKey
  }

  ghost predicate ExclusionStored(t: Tables, x: ExclusionRef) {
    && x.exclusionDigest == ExclusionDigest(x) && x.sourceDecisionValue == Reject
    && (exists d :: d in t.decisions && RejectedBy(x, d))
    && (exists p :: p in t.proposals && Targets(x, p))
  }

  ghost predicate ExclusionRows(t: Tables) {
    forall x | x in t.exclusions :: ExclusionStored(t, x)
  }

  lemma DecisionAppended(t: Tables, d: DecisionRecord)
    requires DecisionRows(t) && DecisionAllowed(t, d) && d.decisionDigest == DecisionDigest(d)
    ensures DecisionRows(t.(decisions := t.decisions + [d]))
  {
    hide DecisionDigest;
    DistinctSnoc(DecisionRowId, t.decisions, d);
    DistinctSnoc(DecisionIdempotency, t.decisions, d);
    DistinctSnoc(DecisionProposal, t.decisions, d);
    DistinctSnoc(DecisionEvaluation, t.decisions, d);
    var u := t.(decisions := t.decisions + [d]);
    forall c | c in u.decisions ensures Decides(u, c) {
      if c in t.decisions { assert Decides(t, c); }
    }
  }

  lemma ExclusionsKept(t: Tables, u: Tables)
    requires ExclusionRows(t) && u.exclusions == t.exclusions && t.decisions <= u.decisions && t.proposals <= u.proposals
    ensures ExclusionRows(u)
  {
    hide ExclusionDigest, RejectedBy, Targets;
    forall x | x in u.exclusions ensures ExclusionStored(u, x) {
      assert ExclusionStored(t, x);
      var d :| d in t.decisions && RejectedBy(x, d);
      var p :| p in t.proposals && Targets(x, p);
      assert d in u.decisions && p in u.proposals;
    }
  }

  lemma SameDecisions(t: Tables, u: Tables)
    requires DecisionRows(t) && u.decisions == t.decisions && t.evaluations <= u.evaluations
    ensures DecisionRows(u)
  {
    hide DecisionDigest;
    forall d | d in u.decisions ensures Decides(u, d) {
      assert Decides(t, d);
      var e :| e in t.evaluations && Finalizes(e, d.proposalId, d.evaluationId, d.traceDigest);
      assert e in u.evaluations;
    }
  }

  /** The rows a written decision appends. */
  lemma DecideWrites(t: Tables, q: DecisionRequest, p: Proposal, decisionId: string, exclusionId: string) returns (d: DecisionRecord)
    requires Decided(t, q, p, decisionId, exclusionId).reply.Written?
    ensures d == DecisionFor(q, decisionId) && DecisionAllowed(t, d) && FindLast(DecisionKeyed(q.idempotencyKey), t.decisions).Absent?
    ensures var (u, x) := (t.(decisions := t.decisions + [d]), ExclusionFor(p, d, exclusionId));
      && Decided(t, q, p, decisionId, exclusionId).reply == Written(d)
      && Decided(t, q, p, decisionId, exclusionId).tables == (if q.exclude then u.(exclusions := u.exclusions + [x]) else u)
      && (q.exclude ==> ExclusionAllowed(u, x))
  {
    hide DecisionAllowed, ExclusionAllowed, DecisionFor, ExclusionFor;
    d := DecisionFor(q, decisionId);
  }

  lemma DecideUnchanged(t: Tables, q: DecisionRequest, p: Proposal, decisionId: string, exclusionId: string)
    requires !Decided(t, q, p, decisionId, exclusionId).reply.Written?
    ensures Decided(t, q, p, decisionId, exclusionId).tables == t
  {
    hide DecisionAllowed, ExclusionAllowed, DecisionFor, ExclusionFor, DecisionReplay;
  }

  lemma RequestFacts(q: DecisionRequest, id: string)
    ensures var d := DecisionFor(q, id);
      d.decisionDigest == DecisionDigest(d) && d.decisionId == id && SameRequest(d, q) && d.idempotencyKey == q.idempotencyKey
  {}

  lemma ExclusionFacts(p: Proposal, d: DecisionRecord, id: string)
    ensures var x := ExclusionFor(p, d, id);
      && x.exclusionId == id && x.exclusionDigest == ExclusionDigest(x) && x.sourceDecisionId == d.decisionId && x.sourceDecisionValue == Reject
      && (p.proposalId == d.proposalId ==> Targets(x, p)) && (d.decision == Reject ==> RejectedBy(x, d))
  {}

  lemma DecideKeepsDecisions(t: Tables, q: DecisionRequest, p: Proposal, decisionId: string, exclusionId: string)
    requires DecisionRows(t) && ExclusionRows(t) && p in t.proposals && p.proposalId == q.proposalId
    ensures DecisionRows(Decided(t, q, p, decisionId, exclusionId).tables)
    ensures ExclusionRows(Decided(t, q, p, decisionId, exclusionId).tables)
  {
    hide Decided, DecisionRows, DecisionAllowed, DecisionDigest, DecisionFor, ExclusionFor, ExclusionDigest, ExclusionRows, ExclusionAllowed, Targets;
    if Decided(t, q, p, decisionId, exclusionId).reply.Written? {
      var d := DecideWrites(t, q, p, decisionId, exclusionId);
      RequestFacts(q, decisionId);
      DecisionAppended(t, d);
      var u := t.(decisions := t.decisions + [d]);
      ExclusionsKept(t, u);
      if q.exclude {
        var x := ExclusionFor(p, d, exclusionId);
        ExclusionFacts(p, d, exclusionId);
        DecisionsDistinct(u);
        ExclusionAppended(u, x, d, p);
        SameDecisions(u, u.(exclusions := u.exclusions + [x]));
      }
    } else {
      DecideUnchanged(t, q, p, decisionId, exclusionId);
    }
  }

  lemma DecisionsDistinct(t: Tables)
    requires DecisionRows(t)
    ensures Distinct(DecisionRowId, t.decisions)
  {}

  lemma ExclusionAppended(t: Tables, x: ExclusionRef, d: DecisionRecord, p: Proposal)
    requires ExclusionRows(t) && ExclusionAllowed(t, x) && x.exclusionDigest == ExclusionDigest(x) && p in t.proposals && Targets(x, p)
    requires Distinct(DecisionRowId, t.decisions) && d in t.decisions && d.decisionId == x.sourceDecisionId
    requires d.decision == Reject ==> RejectedBy(x, d)
    ensures ExclusionRows(t.(exclusions := t.exclusions + [x]))
  {
    hide ExclusionDigest, Targets;
    var c :| c in t.decisions && c.decisionId == x.sourceDecisionId && c.decision == Reject;
    DistinctRows(DecisionRowId, t.decisions, c, d);
    assert RejectedBy(x, d);
    var u := t.(exclusions := t.exclusions + [x]);
    forall y | y in u.exclusions ensures ExclusionStored(u, y) {
      if y in t.exclusions { SameExclusion(t, u, y); }
    }
  }

  lemma SameExclusion(t: Tables, u: Tables, x: ExclusionRef)
    requires ExclusionStored(t, x) && u.decisions == t.decisions && u.proposals == t.proposals
    ensures ExclusionStored(u, x)
  {
    hide ExclusionDigest, Targets, RejectedBy;
  }

  // ----- consequence reports

  ghost predicate ReportedOn(c: ConsequenceReport, r: Receipt) {
    r.receiptId == c.receiptId && r.authority.proposalId == c.proposalId && r.status == Observed && r.receiptDigest == c.receiptDigest
  }

  /** The stored texts, leaves, score and summary are those of one comparison. */
  ghost predicate Measures(c: ConsequenceReport, predicted: Json, actual: Json) {
    var result := Divergence.Divergence(predicted, actual, DEFAULT_THRESHOLD);
    && c.predictedText == PlainJson(predicted) && c.actualText == PlainJson(actual)
    && c.predictedDigest == OfJson(predicted) && c.actualDigest == OfJson(actual)
    && c.leaves == result.leaves && c.score == result.score && c.threshold == DEFAULT_THRESHOLD
    && c.summary == if result.score >= DEFAULT_THRESHOLD then SummaryMore else SummaryLess
  }

  ghost predicate ReportStored(t: Tables, c: ConsequenceReport) {
    && c.reportDigest == ReportDigest(c) && c.receiptStatus == Observed
    && 0.0 <= c.score <= 1.0 && c.threshold == 0.5
    && (exists r :: r in t.receipts && ReportedOn(c, r))
    && (exists p, a :: p in t.proposals && Predicts(p, c) && Measures(c, Rounded(ReadText(p.predictedOutcomeJson).value), a))
  }

  /** The proposal whose predicted outcome a report compares. */
  ghost predicate Predicts(p: Proposal, c: ConsequenceReport) {
    p.proposalId == c.proposalId && ReadText(p.predictedOutcomeJson).Some?
  }

  ghost predicate ReportRows(t: Tables) {
    && Distinct(ReportRowId, t.reports) && Distinct(ReportIdempotency, t.reports)
    && (forall c | c in t.reports :: ReportStored(t, c))
  }

  lemma StoredInLarger(t: Tables, u: Tables, c: ConsequenceReport)
    requires ReportStored(t, c) && t.receipts <= u.receipts && t.proposals <= u.proposals
    ensures ReportStored(u, c)
  {
    hide ReportDigest, Measures, ReportedOn, ReadText, Rounded;
    var r :| r in t.receipts && ReportedOn(c, r);
    assert r in u.receipts;
    var p, a :| p in t.proposals && Predicts(p, c) && Measures(c, Rounded(ReadText(p.predictedOutcomeJson).value), a);
    assert p in u.proposals;
  }

  lemma SameReports(t: Tables, u: Tables)
    requires ReportRows(t) && u.reports == t.reports && t.receipts <= u.receipts && t.proposals <= u.proposals
    ensures ReportRows(u)
  {
    hide ReportStored;
    forall c | c in u.reports ensures ReportStored(u, c) { StoredInLarger(t, u, c); }
  }

  lemma ReportFacts(r: Receipt, predicted: Json, actual: Json, o: Observation, id: string)
    ensures var c := ReportFor(r, predicted, actual, o, id);
      && c.reportDigest == ReportDigest(c) && Measures(c, predicted, actual) && c.receiptStatus == Observed
      && c.consequenceId == id && c.idempotencyKey == o.idempotencyKey && c.receiptId == r.receiptId
      && c.proposalId == r.authority.proposalId && c.receiptDigest == r.receiptDigest && c.observationNumber == o.number
      && c.reportedBy == o.reportedBy
  {
    hide Report, Mean, PlainJson;
  }

  /** The row a written report appends. */
  lemma ReportWrites(t: Tables, o: Observation, id: string) returns (r: Receipt, p: Proposal, predicted: Json, actual: Json)
    requires Reported(t, o, id).reply.Written?
    ensures p in t.proposals && p.proposalId == r.authority.proposalId && ReadText(p.predictedOutcomeJson) == Some(predicted)
    ensures FindLast(HasReceiptId(o.receiptId), t.receipts) == Present(r) && Reportable(t, r)
    ensures FindLast(ReportKeyed(o.idempotencyKey), t.reports).Absent?
    ensures ReadText(o.actualText) == Some(actual)
    ensures var c := ReportFor(r, Rounded(predicted), Rounded(actual), o, id);
      && ReportAllowed(t, c) && Reported(t, o, id) == Tx(t.(reports := t.reports + [c]), Written(c))
  {
    hide ReadText, Rounded, ReportFor, ReportAllowed, Reportable;
    actual := ReadText(o.actualText).value;
    r := FindLast(HasReceiptId(o.receiptId), t.receipts).row;
    p := FindLast(HasProposalId(r.authority.proposalId), t.proposals).row;
    predicted := ReadText(p.predictedOutcomeJson).value;
  }

  lemma ReportUnchanged(t: Tables, o: Observation, id: string)
    requires !Reported(t, o, id).reply.Written?
    ensures Reported(t, o, id).tables == t
  {
    hide ReadText, Rounded, ReportFor, ReportAllowed, Reportable, ReportReplay;
  }

  lemma ReportAppended(t: Tables, c: ConsequenceReport, p: Proposal, actual: Json)
    requires ReportRows(t) && ReportAllowed(t, c) && c.reportDigest == ReportDigest(c)
    requires p in t.proposals && Predicts(p, c) && Measures(c, Rounded(ReadText(p.predictedOutcomeJson).value), actual)
    ensures ReportRows(t.(reports := t.reports + [c]))
  {
    hide ReportDigest, Measures, ReportStored, ReadText, Rounded;
    var u := t.(reports := t.reports + [c]);
    DistinctSnoc(ReportRowId, t.reports, c);
    DistinctSnoc(ReportIdempotency, t.reports, c);
    forall d | d in u.reports ensures ReportStored(u, d) {
      if d in t.reports { StoredInLarger(t, u, d); } else { FreshReportStored(t, u, c, p, actual); }
    }
  }

  lemma FreshReportStored(t: Tables, u: Tables, c: ConsequenceReport, p: Proposal, actual: Json)
    requires ReportAllowed(t, c) && c.reportDigest == ReportDigest(c) && u.receipts == t.receipts && u.proposals == t.proposals
    requires p in t.proposals && Predicts(p, c) && Measures(c, Rounded(ReadText(p.predictedOutcomeJson).value), actual)
    ensures ReportStored(u, c)
  {
    hide ReportDigest, Measures, ReadText, Rounded;
    var r :| r in t.receipts && r.receiptId == c.receiptId && r.authority.proposalId == c.proposalId && r.status == Observed
             && r.receiptDigest == c.receiptDigest;
    assert ReportedOn(c, r);
  }

  lemma ReportKeepsReports(t: Tables, o: Observation, id: string)
    requires ReportRows(t)
    ensures ReportRows(Reported(t, o, id).tables)
  {
    hide Reported, ReportRows, ReportFor, ReportAllowed, Measures, ReportDigest, Rounded;
    if Reported(t, o, id).reply.Written? {
      var r, p, predicted, actual := ReportWrites(t, o, id);
      ReportFacts(r, Rounded(predicted), Rounded(actual), o, id);
      ReportAppended(t, ReportFor(r, Rounded(predicted), Rounded(actual), o, id), p, Rounded(actual));
    } else {
      ReportUnchanged(t, o, id);
    }
  }

  // ----- clients with a proven rollback

  /** The authority a rolled-back client carries is still in the tables. */
  ghost predicate FailureBound(t: Tables, f: FailedEffect) {
    && f.decision in t.decisions && f.decision.decision == Approve && f.decision.decisionId == f.command.decisionId
    && f.proposal in t.proposals && f.proposal.proposalId == f.decision.proposalId
    && ValidateEffect(f.proposal) == Some(f.plan) && DigestOfKey(t, f.plan.key, f.before)
  }

  /** The zero digest, or the digest of some version of the key. */
  ghost predicate DigestOfKey(t: Tables, key: string, before: Digest) {
    before == Zero || exists e :: e in t.effects && e.effectKey == key && e.digest == before
  }

  lemma {:induction false} NewestIsMember(es: seq<Effect>)
    ensures Newest(es).Present? ==> Newest(es).row in es
  {
    if es != [] { NewestIsMember(es[..|es| - 1]); }
  }

  lemma BeforeOfKey(t: Tables, c: Command, d: DecisionRecord, p: Proposal, plan: EffectPlan, id: string)
    ensures DigestOfKey(t, plan.key, EffectFor(t, c, d, p, plan, id).before)
  {
    hide Newest, EffectDigest;
    var es := Filter(HasEffectKey(plan.key), t.effects);
    NewestIsMember(es);
    FilterMembers(HasEffectKey(plan.key), t.effects);
  }

  lemma RollbackBound(t: Tables, self: string, c: Command, w: Draws, fault: Fault)
    requires Executed(t, self, c, w, fault).answer.ProvenRollback?
    ensures FailureBound(t, Executed(t, self, c, w, fault).answer.failed)
    ensures Executed(t, self, c, w, fault).answer.failed.command == c
  {
    hide Authorized, ValidateEffect, EffectAllowed, EffectFor, Closed, ObservedAttempt, Filter, DigestOfKey;
    AuthorizedFacts(t, c);
    var (d, p) := Authorized(t, c).value;
    BeforeOfKey(t, c, d, p, ValidateEffect(p).value, w.effectId);
  }

  // ----- effects and their proposals

  /** The effect is what the proposal asks for: its key, its canonical value, its action. */
  ghost predicate AskedBy(e: Effect, p: Proposal) {
    && p.proposalId == e.authority.proposalId && p.actionDigest == e.actionDigest && p.targetKey == e.targetKey
    && ValidateEffect(p) == Some(EffectPlan(e.effectKey, e.value))
  }

  /** So is every attempt, the failed ones included; it starts from a version of its key. */
  ghost predicate AttemptAskedBy(a: Attempt, p: Proposal) {
    && p.proposalId == a.authority.proposalId && p.actionDigest == a.actionDigest && p.targetKey == a.targetKey
    && ValidateEffect(p) == Some(EffectPlan(a.effectKey, a.requestedValue))
  }

  ghost predicate AttemptAsked(t: Tables, a: Attempt) {
    (exists p :: p in t.proposals && AttemptAskedBy(a, p)) && DigestOfKey(t, a.effectKey, a.before)
  }

  ghost predicate EffectsAsked(t: Tables) {
    && (forall e | e in t.effects :: exists p :: p in t.proposals && AskedBy(e, p))
    && (forall a | a in t.attempts :: AttemptAsked(t, a))
  }

  lemma AttemptInLarger(t: Tables, u: Tables, a: Attempt)
    requires AttemptAsked(t, a) && t.effects <= u.effects && t.proposals <= u.proposals
    ensures AttemptAsked(u, a)
  {
    hide AttemptAskedBy;
    var p :| p in t.proposals && AttemptAskedBy(a, p);
    assert p in u.proposals;
    DigestInLarger(t, u, a.effectKey, a.before);
  }

  lemma DigestInLarger(t: Tables, u: Tables, key: string, before: Digest)
    requires DigestOfKey(t, key, before) && t.effects <= u.effects
    ensures DigestOfKey(u, key, before)
  {
    if before != Zero {
      var e :| e in t.effects && e.effectKey == key && e.digest == before;
      assert e in u.effects;
    }
  }

  lemma AskedInLarger(t: Tables, u: Tables)
    requires EffectsAsked(t) && u.effects == t.effects && u.attempts == t.attempts && t.proposals <= u.proposals
    ensures EffectsAsked(u)
  {
    hide AskedBy, AttemptAsked;
    forall e | e in u.effects ensures exists p :: p in u.proposals && AskedBy(e, p) {
      var p :| p in t.proposals && AskedBy(e, p);
      assert p in u.proposals;
    }
    forall a | a in u.attempts ensures AttemptAsked(u, a) { AttemptInLarger(t, u, a); }
  }

  lemma ObservedAsks(e: Effect, w: Draws, p: Proposal)
    requires AskedBy(e, p)
    ensures AttemptAskedBy(ObservedAttempt(e, w), p) && ObservedAttempt(e, w).before == e.before
  {
    hide ValidateEffect;
  }

  lemma ErrorAsks(f: FailedEffect, w: Draws)
    requires ValidateEffect(f.proposal) == Some(f.plan) && f.proposal.proposalId == f.decision.proposalId
    ensures AttemptAskedBy(ErrorAttempt(f, w), f.proposal) && ErrorAttempt(f, w).before == f.before && ErrorAttempt(f, w).effectKey == f.plan.key
  {
    hide ValidateEffect;
  }

  lemma AskedSnoc(t: Tables, u: Tables, a: Attempt)
    requires EffectsAsked(t) && t.effects <= u.effects && t.proposals <= u.proposals && u.attempts == t.attempts + [a] && AttemptAsked(u, a)
    requires forall e | e in u.effects && e !in t.effects :: exists p :: p in u.proposals && AskedBy(e, p)
    ensures EffectsAsked(u)
  {
    hide AskedBy, AttemptAsked;
    forall e | e in u.effects ensures exists p :: p in u.proposals && AskedBy(e, p) {
      if e in t.effects {
        var p :| p in t.proposals && AskedBy(e, p);
        assert p in u.proposals;
      }
    }
    forall b | b in u.attempts ensures AttemptAsked(u, b) { if b in t.attempts { AttemptInLarger(t, u, b); } }
  }

  lemma AskedAppended(t: Tables, u: Tables, e: Effect, a: Attempt, p: Proposal)
    requires EffectsAsked(t) && u.effects == t.effects + [e] && u.attempts == t.attempts + [a] && u.proposals == t.proposals
    requires p in t.proposals && AskedBy(e, p) && AttemptAskedBy(a, p) && DigestOfKey(t, a.effectKey, a.before)
    ensures EffectsAsked(u)
  {
    hide AskedBy, AttemptAskedBy, DigestOfKey, EffectsAsked;
    DigestInLarger(t, u, a.effectKey, a.before);
    AskedSnoc(t, u, a);
  }

  lemma ExecuteKeepsAsked(t: Tables, self: string, c: Command, w: Draws, fault: Fault)
    requires EffectsAsked(t)
    ensures EffectsAsked(Executed(t, self, c, w, fault).tables)
  {
    hide Executed, Closed, Authorized, ValidateEffect, EffectAllowed, EffectFor, ObservedAttempt, Filter, EffectsAsked, DigestOfKey,
      AttemptAskedBy, ReceiptOf;
    var x := Executed(t, self, c, w, fault);
    if x.answer.Receipted? && x.answer.reply.Written? {
      var d, p, plan, e := ExecuteWrites(t, self, c, w, fault);
      AuthorizedFacts(t, c);
      EffectForFacts(t, c, d, p, plan, w.effectId);
      ClosedRows(t, t.(effects := t.effects + [e]), ObservedAttempt(e, w), w.receiptId);
      assert AskedBy(e, p);
      ObservedAsks(e, w, p);
      ObservedFacts(e, w);
      BeforeOfKey(t, c, d, p, plan, w.effectId);
      AskedAppended(t, x.tables, e, ObservedAttempt(e, w), p);
    } else {
      ExecuteUnchanged(t, self, c, w, fault);
    }
  }

  lemma ErrorKeepsAsked(t: Tables, f: FailedEffect, w: Draws)
    requires EffectsAsked(t) && FailureBound(t, f)
    ensures EffectsAsked(ErrorRecorded(t, f, w).tables)
  {
    hide Closed, ErrorAttempt, EffectsAsked, DigestOfKey, AttemptAskedBy, ReceiptOf, ValidateEffect;
    var u := ErrorRecorded(t, f, w).tables;
    ErrorAsks(f, w);
    if ErrorRecorded(t, f, w).reply.Written? {
      ClosedRows(t, t, ErrorAttempt(f, w), w.receiptId);
      DigestInLarger(t, u, f.plan.key, f.before);
      AskedSnoc(t, u, ErrorAttempt(f, w));
    } else {
      ErrorUnwritten(t, f, w);
    }
  }

  lemma ErrorUnwritten(t: Tables, f: FailedEffect, w: Draws)
    requires !ErrorRecorded(t, f, w).reply.Written?
    ensures ErrorRecorded(t, f, w).tables == t
  {
    hide ErrorAttempt, AttemptAllowed, ReceiptAllowed, ReceiptOf, ReceiptDigest;
  }

  // ----- the invariant

  ghost predicate TablesKept(t: Tables) {
    && ExecutionRows(t) && Versions(t.effects) && EffectsAsked(t) && Genealogy(t)
    && DecisionRows(t) && ExclusionRows(t) && ReportRows(t)
  }

  /** A reviewed request carries the stored proposal it is about. */
  ghost predicate ReviewBound(t: Tables, r: PendingDecision) {
    r.proposal in t.proposals && r.proposal.proposalId == r.request.proposalId
  }

  ghost predicate Inv(w: World) {
    && TablesKept(w.tables)
    && (forall k | k in w.failed :: FailureBound(w.tables, w.failed[k]))
    && (forall k | k in w.reviewed :: ReviewBound(w.tables, w.reviewed[k]))
  }

  lemma StartKept()
    ensures Inv(START)
  {
    hide OutcomeAccepted, EvaluationChain, EffectChain;
    forall id ensures EvaluationChain(Filter(OfProposalRow(id), [])) { NoEvaluations(); }
    forall k ensures EffectChain(Filter(HasEffectKey(k), [])) { NoEffects(); }
  }

  lemma NoEvaluations()
    ensures EvaluationChain([])
  {}

  lemma NoEffects()
    ensures EffectChain([])
  {}

  /** Steps on proposals and evaluations leave the other tables alone. */
  lemma GenealogyStep(t: Tables, u: Tables)
    requires TablesKept(t) && Genealogy(u) && t.evaluations <= u.evaluations && t.proposals <= u.proposals
    requires u == t.(proposals := u.proposals, evaluations := u.evaluations)
    ensures TablesKept(u)
  {
    hide ExecutionRows, Versions, EffectsAsked, Genealogy, DecisionRows, ExclusionRows, ReportRows;
    SameExecutions(t, u);
    AskedInLarger(t, u);
    SameDecisions(t, u);
    ExclusionsKept(t, u);
    SameReports(t, u);
  }

  lemma SubmitFrame(t: Tables, p: Proposal, s: EvaluationSnapshot, o: Outcome)
    ensures var u := Submitted(t, p, s, o).tables; u == t.(proposals := u.proposals, evaluations := u.evaluations)
  {
    hide FirstAccepted, ProposalAllowed, EvaluationAllowed;
  }

  lemma ReEvaluateFrame(t: Tables, s: EvaluationSnapshot, o: Outcome)
    ensures var u := ReEvaluated(t, s, o).tables; u == t.(proposals := u.proposals, evaluations := u.evaluations)
  {
    hide NextAccepted, EvaluationAllowed;
  }

  lemma SubmitKeeps(t: Tables, p: Proposal, s: EvaluationSnapshot, o: Outcome)
    requires TablesKept(t)
    ensures TablesKept(Submitted(t, p, s, o).tables)
  {
    hide Submitted, ExecutionRows, Versions, EffectsAsked, Genealogy, DecisionRows, ExclusionRows, ReportRows;
    SubmitKeepsGenealogy(t, p, s, o);
    SubmitExtends(t, p, s, o);
    SubmitFrame(t, p, s, o);
    GenealogyStep(t, Submitted(t, p, s, o).tables);
  }

  lemma ReEvaluateKeeps(t: Tables, s: EvaluationSnapshot, o: Outcome)
    requires TablesKept(t)
    ensures TablesKept(ReEvaluated(t, s, o).tables)
  {
    hide ReEvaluated, ExecutionRows, Versions, EffectsAsked, Genealogy, DecisionRows, ExclusionRows, ReportRows;
    ReEvaluateKeepsGenealogy(t, s, o);
    ReEvaluateExtends(t, s, o);
    ReEvaluateFrame(t, s, o);
    GenealogyStep(t, ReEvaluated(t, s, o).tables);
  }

  lemma DecideFrame(t: Tables, q: DecisionRequest, p: Proposal, decisionId: string, exclusionId: string)
    ensures var u := Decided(t, q, p, decisionId, exclusionId).tables; u == t.(decisions := u.decisions, exclusions := u.exclusions)
  {
    hide DecisionAllowed, ExclusionAllowed, DecisionReplay;
  }

  lemma DecideKeeps(t: Tables, q: DecisionRequest, p: Proposal, decisionId: string, exclusionId: string)
    requires TablesKept(t) && p in t.proposals && p.proposalId == q.proposalId
    ensures TablesKept(Decided(t, q, p, decisionId, exclusionId).tables)
  {
    hide Decided, ExecutionRows, Versions, EffectsAsked, Genealogy, DecisionRows, ExclusionRows, ReportRows;
    var u := Decided(t, q, p, decisionId, exclusionId).tables;
    DecideKeepsDecisions(t, q, p, decisionId, exclusionId);
    DecideExtends(t, q, p, decisionId, exclusionId);
    DecideFrame(t, q, p, decisionId, exclusionId);
    SameExecutions(t, u);
    AskedInLarger(t, u);
    SameGenealogy(t, u);
    SameReports(t, u);
  }

  /** Steps on effects, attempts and receipts leave the other tables alone. */
  lemma ExecutionStep(t: Tables, u: Tables)
    requires TablesKept(t) && ExecutionRows(u) && Versions(u.effects) && EffectsAsked(u) && t.receipts <= u.receipts
    requires u == t.(effects := u.effects, attempts := u.attempts, receipts := u.receipts)
    ensures TablesKept(u)
  {
    hide ExecutionRows, Versions, EffectsAsked, Genealogy, DecisionRows, ExclusionRows, ReportRows;
    SameGenealogy(t, u);
    SameDecisions(t, u);
    ExclusionsKept(t, u);
    SameReports(t, u);
  }

  lemma ExecuteFrame(t: Tables, self: string, c: Command, w: Draws, fault: Fault)
    ensures var u := Executed(t, self, c, w, fault).tables; u == t.(effects := u.effects, attempts := u.attempts, receipts := u.receipts)
  {
    hide Authorized, ValidateEffect, EffectAllowed, EffectFor, ObservedAttempt, Filter, AttemptAllowed, ReceiptAllowed, ReceiptOf;
  }

  lemma ExecuteKeeps(t: Tables, self: string, c: Command, w: Draws, fault: Fault)
    requires TablesKept(t)
    ensures TablesKept(Executed(t, self, c, w, fault).tables)
  {
    hide Executed, ExecutionRows, Versions, EffectsAsked, Genealogy, DecisionRows, ExclusionRows, ReportRows;
    ExecuteKeepsExecutions(t, self, c, w, fault);
    ExecuteKeepsVersions(t, self, c, w, fault);
    ExecuteKeepsAsked(t, self, c, w, fault);
    ExecuteExtends(t, self, c, w, fault);
    ExecuteFrame(t, self, c, w, fault);
    ExecutionStep(t, Executed(t, self, c, w, fault).tables);
  }

  lemma ErrorFrame(t: Tables, f: FailedEffect, w: Draws)
    ensures var u := ErrorRecorded(t, f, w).tables; u == t.(attempts := u.attempts, receipts := u.receipts)
  {
    hide ErrorAttempt, AttemptAllowed, ReceiptAllowed, ReceiptOf;
  }

  lemma ErrorKeeps(t: Tables, f: FailedEffect, w: Draws)
    requires TablesKept(t) && FailureBound(t, f)
    ensures TablesKept(ErrorRecorded(t, f, w).tables)
  {
    hide ErrorRecorded, FailureBound, ExecutionRows, Versions, EffectsAsked, Genealogy, DecisionRows, ExclusionRows, ReportRows;
    ErrorKeepsExecutions(t, f, w);
    ErrorExtends(t, f, w);
    ErrorFrame(t, f, w);
    ErrorKeepsAsked(t, f, w);
    ExecutionStep(t, ErrorRecorded(t, f, w).tables);
  }

  lemma ReportFrame(t: Tables, o: Observation, id: string)
    ensures var u := Reported(t, o, id).tables; u == t.(reports := u.reports)
  {
    hide ReadText, Rounded, ReportFor, ReportAllowed, Reportable, ReportReplay;
  }

  lemma ReportKeeps(t: Tables, o: Observation, id: string)
    requires TablesKept(t)
    ensures TablesKept(Reported(t, o, id).tables)
  {
    hide Reported, ExecutionRows, Versions, EffectsAsked, Genealogy, DecisionRows, ExclusionRows, ReportRows;
    var u := Reported(t, o, id).tables;
    ReportKeepsReports(t, o, id);
    ReportFrame(t, o, id);
    SameExecutions(t, u);
    AskedInLarger(t, u);
    SameGenealogy(t, u);
    SameDecisions(t, u);
    ExclusionsKept(t, u);
  }

  /** Every step of every client keeps the tables sound. */
  lemma StepKeepsTables(w: World, a: Step)
    requires TablesKept(w.tables) && (forall k | k in w.reviewed :: ReviewBound(w.tables, w.reviewed[k]))
    requires forall k | k in w.failed :: FailureBound(w.tables, w.failed[k])
    ensures TablesKept(Next(w, a).tables)
  {
    hide TablesKept, Submitted, ReEvaluated, Decided, Executed, ErrorRecorded, Reported, Reviewed, FailureBound;
    match a {
      case Submit(p, s, o) => SubmitKeeps(w.tables, p, s, o);
      case ReEvaluate(s, o) => ReEvaluateKeeps(w.tables, s, o);
      case Review(k, q) =>
      case Decide(k, d, x) =>
        if k in w.reviewed { DecideKeeps(w.tables, w.reviewed[k].request, w.reviewed[k].proposal, d, x); }
      case Execute(k, self, c, draws, fault) => ExecuteKeeps(w.tables, self, c, draws, fault);
      case RecordError(k, draws) => if k in w.failed { ErrorKeeps(w.tables, w.failed[k], draws); }
      case Observe(o, id) => ReportKeeps(w.tables, o, id);
      case Leave(k) =>
    }
  }

  lemma BoundInLarger(t: Tables, u: Tables, f: FailedEffect)
    requires FailureBound(t, f) && Extends(t, u)
    ensures FailureBound(u, f)
  {
    hide ValidateEffect, DigestOfKey;
    DigestInLarger(t, u, f.plan.key, f.before);
  }

  /** A step keeps every pending rollback, or takes one away, or adds one that is bound. */
  lemma StepFailures(w: World, a: Step, k: nat)
    requires k in Next(w, a).failed
    ensures (k in w.failed && Next(w, a).failed[k] == w.failed[k]) || FailureBound(w.tables, Next(w, a).failed[k])
  {
    hide Submitted, ReEvaluated, Decided, Executed, ErrorRecorded, Reported, Reviewed, FailureBound;
    if a.Execute? && a.client !in w.failed && Executed(w.tables, a.self, a.c, a.w, a.fault).answer.ProvenRollback? {
      RollbackBound(w.tables, a.self, a.c, a.w, a.fault);
    }
  }

  lemma ReviewFinds(t: Tables, q: DecisionRequest)
    requires Reviewed(t, q).Some?
    ensures ReviewBound(t, PendingDecision(q, Reviewed(t, q).value))
  {
    hide OutcomeAccepted;
  }

  lemma StepReviews(w: World, a: Step, k: nat)
    requires k in Next(w, a).reviewed
    ensures (k in w.reviewed && Next(w, a).reviewed[k] == w.reviewed[k]) || ReviewBound(w.tables, Next(w, a).reviewed[k])
  {
    hide Submitted, ReEvaluated, Decided, Executed, ErrorRecorded, Reported, Reviewed, ReviewBound;
    if a.Review? && Reviewed(w.tables, a.q).Some? { ReviewFinds(w.tables, a.q); }
  }

  lemma StepKeeps(w: World, a: Step)
    requires Inv(w)
    ensures Inv(Next(w, a))
  {
    hide Next, TablesKept, FailureBound, Extends, ReviewBound;
    StepKeepsTables(w, a);
    StepExtends(w, a);
    var v := Next(w, a);
    forall k | k in v.failed ensures FailureBound(v.tables, v.failed[k]) {
      StepFailures(w, a, k);
      BoundInLarger(w.tables, v.tables, v.failed[k]);
    }
    forall k | k in v.reviewed ensures ReviewBound(v.tables, v.reviewed[k]) {
      StepReviews(w, a, k);
      ReviewInLarger(w.tables, v.tables, v.reviewed[k]);
    }
  }

  lemma ReviewInLarger(t: Tables, u: Tables, r: PendingDecision)
    requires ReviewBound(t, r) && Extends(t, u)
    ensures ReviewBound(u, r)
  {}

  /** Every run of every interleaving keeps the invariant. */
  lemma {:induction false} RunKeeps(w: World, steps: seq<Step>)
    requires Inv(w)
    ensures Inv(Run(w, steps))
  {
    hide Next, Inv;
    if steps != [] {
      RunKeeps(w, steps[..|steps| - 1]);
      StepKeeps(Run(w, steps[..|steps| - 1]), steps[|steps| - 1]);
    }
  }

  lemma ReachableKept(w: World)
    requires Reachable(w)
    ensures Inv(w)
  {
    hide Run, Inv;
    var steps :| w == Run(START, steps);
    StartKept();
    RunKeeps(START, steps);
  }
}
